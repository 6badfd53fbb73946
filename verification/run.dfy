/** The command-line front end's two pieces of pure logic
    (batpu2-cli/src/run.rs): deciding whether a source file is already
    machine code, and the change detector that throttles redrawing. */
module Run {
  import opened Results

  /** Characters with the Unicode `White_Space` property, which `str::trim`
      removes. */
  predicate IsWhitespace(ch: char) {
    ('\U{0009}' <= ch <= '\U{000D}') || ch == ' ' || ch == '\U{0085}' || ch == '\U{00A0}'
    || ch == '\U{1680}' || ('\U{2000}' <= ch <= '\U{200A}') || ch == '\U{2028}'
    || ch == '\U{2029}' || ch == '\U{202F}' || ch == '\U{205F}' || ch == '\U{3000}'
  }

  predicate AllWhitespace(s: string) {
    forall k :: 0 <= k < |s| ==> IsWhitespace(s[k])
  }

  /** `str::trim_start` */
  function TrimStart(s: string): string {
    if s != [] && IsWhitespace(s[0]) then TrimStart(s[1..]) else s
  }

  /** `str::trim_end` */
  function TrimEnd(s: string): string {
    if s != [] && IsWhitespace(s[|s| - 1]) then TrimEnd(s[..|s| - 1]) else s
  }

  /** `TrimStart` drops a whitespace prefix and stops at the first other
      character. */
  lemma {:induction false} TrimStartSpec(s: string)
    ensures var r := TrimStart(s); |r| <= |s| && r == s[|s| - |r|..]
    ensures AllWhitespace(s[..|s| - |TrimStart(s)|])
    ensures var r := TrimStart(s); r != [] ==> !IsWhitespace(r[0])
  {
    if s != [] && IsWhitespace(s[0]) {
      TrimStartSpec(s[1..]);
      var r := TrimStart(s);
      assert s[..|s| - |r|] == [s[0]] + s[1..][..|s| - 1 - |r|];
    }
  }

  /** `TrimEnd` drops a whitespace suffix and stops at the last other
      character. */
  lemma {:induction false} TrimEndSpec(s: string)
    ensures var r := TrimEnd(s); |r| <= |s| && r == s[..|r|]
    ensures AllWhitespace(s[|TrimEnd(s)|..])
    ensures var r := TrimEnd(s); r != [] ==> !IsWhitespace(r[|r| - 1])
  {
    if s != [] && IsWhitespace(s[|s| - 1]) {
      TrimEndSpec(s[..|s| - 1]);
      var r := TrimEnd(s);
      assert s[|r|..] == s[..|s| - 1][|r|..] + [s[|s| - 1]];
    }
  }

  /** `r` is `s` from index `i` on, with only whitespace around it. */
  predicate TrimmedAt(s: string, r: string, i: int) {
    0 <= i <= |s| - |r| && s[i..i + |r|] == r
    && AllWhitespace(s[..i]) && AllWhitespace(s[i + |r|..])
  }

  /** `str::trim` */
  function Trim(s: string): string {
    TrimEnd(TrimStart(s))
  }

  /** What `Trim` leaves: a slice of the input with only whitespace around
      it, which neither starts nor ends with whitespace. */
  lemma TrimSpec(s: string)
    ensures exists i :: TrimmedAt(s, Trim(s), i)
    ensures var r := Trim(s); r != [] ==> !IsWhitespace(r[0]) && !IsWhitespace(r[|r| - 1])
  {
    var t := TrimStart(s);
    var r := TrimEnd(t);
    var i := |s| - |t|;
    TrimStartSpec(s);
    TrimEndSpec(t);
    assert s[i..i + |r|] == r;
    assert s[i + |r|..] == t[|r|..];
    assert r == Trim(s);
    assert TrimmedAt(s, r, i);
  }

  /** The trimmed text is determined by where it sits: any slice of `s`
      surrounded by whitespace and with non-whitespace ends is `Trim(s)`. */
  lemma TrimUnique(s: string, r: string, i: int)
    requires TrimmedAt(s, r, i)
    requires r != [] ==> !IsWhitespace(r[0]) && !IsWhitespace(r[|r| - 1])
    ensures r == Trim(s)
  {
    var t := Trim(s);
    TrimSpec(s);
    var j :| TrimmedAt(s, t, j);
    TrimBounds(s, r, i);
    TrimBounds(s, t, j);
    if r != [] && t != [] {
      assert i == j;
      assert |r| == |t|;
    }
  }

  /** Where a trimmed slice starts and ends, in terms of `s` alone. */
  lemma TrimBounds(s: string, r: string, i: int)
    requires TrimmedAt(s, r, i)
    requires r != [] ==> !IsWhitespace(r[0]) && !IsWhitespace(r[|r| - 1])
    ensures r == [] ==> AllWhitespace(s)
    ensures r != [] ==> !IsWhitespace(s[i]) && !IsWhitespace(s[i + |r| - 1])
    ensures r != [] ==> forall k :: 0 <= k < i ==> IsWhitespace(s[k])
    ensures r != [] ==> forall k :: i + |r| <= k < |s| ==> IsWhitespace(s[k])
  {
    if r == [] {
      assert s == s[..i] + s[i..];
    } else {
      assert s[i] == r[0];
      assert s[i + |r| - 1] == r[|r| - 1];
      assert forall k :: 0 <= k < i ==> s[k] == s[..i][k];
      assert forall k :: i + |r| <= k < |s| ==> s[k] == s[i + |r|..][k - i - |r|];
    }
  }

  /** A carriage return at the end of a line makes no difference once the
      line is trimmed. */
  lemma TrimDropsReturn(l: string)
    ensures Trim(l + "\r") == Trim(l)
  {
    var r := Trim(l);
    TrimSpec(l);
    var i :| TrimmedAt(l, r, i);
    var s := l + "\r";
    assert s[i..i + |r|] == r;
    assert s[..i] == l[..i];
    assert s[i + |r|..] == l[i + |r|..] + "\r";
    TrimUnique(s, r, i);
  }

  /** The index of the first line feed, or the length when there is none. */
  function NewlineAt(s: string): (k: nat)
    ensures k <= |s| && (k < |s| ==> s[k] == '\n')
    ensures forall j :: 0 <= j < k ==> s[j] != '\n'
  {
    if s == [] || s[0] == '\n' then 0 else 1 + NewlineAt(s[1..])
  }

  /** A line ended by a line feed loses one carriage return before it. */
  function StripReturn(l: string): string {
    if l != [] && l[|l| - 1] == '\r' then l[..|l| - 1] else l
  }

  /** `str::lines`: the text split at line feeds, each line without its
      terminator, a final terminator not opening an empty last line. */
  function Lines(s: string): (ls: seq<string>)
    ensures s == [] <==> ls == []
    decreases |s|
  {
    if s == [] then []
    else
      var k := NewlineAt(s);
      if k == |s| then [s]
      else [StripReturn(s[..k])] + Lines(s[k + 1..])
  }

  predicate IsBit(ch: char) {
    ch == '0' || ch == '1'
  }

  predicate AllBits(s: string) {
    forall k :: 0 <= k < |s| ==> IsBit(s[k])
  }

  /** The number of bytes UTF-8 uses for a character. */
  function Utf8Width(ch: char): (n: nat)
    ensures 1 <= n <= 4 && (n == 1 <==> ch as int < 0x80)
  {
    if ch as int < 0x80 then 1
    else if ch as int < 0x800 then 2
    else if ch as int < 0x10000 then 3
    else 4
  }

  /** `str::len`: the length in UTF-8 bytes. */
  function Utf8Len(s: string): (n: nat)
    ensures |s| <= n
  {
    if s == [] then 0 else Utf8Width(s[0]) + Utf8Len(s[1..])
  }

  /** The line test of `is_mc` (batpu2-cli/src/run.rs:21-22): blank after
      trimming, or sixteen bytes that are all `0` or `1`. */
  predicate LineAccepted(line: string) {
    var t := Trim(line);
    t == [] || (Utf8Len(t) == 16 && AllBits(t))
  }

  /** `is_mc` (batpu2-cli/src/run.rs:20-23): every line passes. */
  predicate IsMachineCode(input: string) {
    var ls := Lines(input);
    forall k :: 0 <= k < |ls| ==> LineAccepted(ls[k])
  }

  lemma {:induction false} AsciiLength(s: string)
    requires forall k :: 0 <= k < |s| ==> s[k] as int < 0x80
    ensures Utf8Len(s) == |s|
  {
    if s != [] {
      AsciiLength(s[1..]);
    }
  }

  /** For a text of bits, bytes and characters agree: an accepted line is
      blank or exactly sixteen bits. */
  lemma LineAcceptedChars(line: string)
    ensures LineAccepted(line) <==> var t := Trim(line);
      t == [] || (|t| == 16 && AllBits(t))
  {
    var t := Trim(line);
    if AllBits(t) {
      AsciiLength(t);
    }
  }

  /** The sniffing loop, stopping at the first line that fails as
      `Iterator::all` does. */
  method SniffMachineCode(input: string) returns (mc: bool)
    ensures mc <==> IsMachineCode(input)
  {
    var ls := Lines(input);
    var n := 0;
    while n < |ls| && LineAccepted(ls[n])
      invariant 0 <= n <= |ls|
      invariant forall k :: 0 <= k < n ==> LineAccepted(ls[k])
    {
      n := n + 1;
    }
    mc := n == |ls|;
  }

  /** No line holds a line feed: the lines are the pieces between them. */
  lemma {:induction false} LinesNoNewline(s: string, k: nat)
    requires k < |Lines(s)|
    ensures '\n' !in Lines(s)[k]
    decreases |s|
  {
    var n := NewlineAt(s);
    if n < |s| {
      if k == 0 {
        assert Lines(s)[0] == StripReturn(s[..n]);
        assert forall j :: 0 <= j < |s[..n]| ==> s[..n][j] == s[j];
      } else {
        assert Lines(s)[k] == Lines(s[n + 1..])[k - 1];
        LinesNoNewline(s[n + 1..], k - 1);
      }
    } else {
      assert Lines(s) == [s];
    }
  }

  /** A non-empty text without a line feed is one line, kept whole: a
      carriage return is dropped only before a line feed. */
  lemma LinesSingle(s: string)
    requires s != [] && '\n' !in s
    ensures Lines(s) == [s]
  {
    assert NewlineAt(s) == |s|;
  }

  /** A line ended by a line feed is the first line, without the
      terminator and one carriage return before it; the lines of the rest
      follow. In particular a final line feed opens no empty last line. */
  lemma LinesCons(l: string, rest: string)
    requires '\n' !in l
    ensures Lines(l + "\n" + rest) == [StripReturn(l)] + Lines(rest)
  {
    var s := l + "\n" + rest;
    assert NewlineAt(s) == |l| by {
      assert s[|l|] == '\n';
      assert forall j :: 0 <= j < |l| ==> s[j] == l[j];
    }
    assert s[..|l|] == l;
    assert s[|l| + 1..] == rest;
  }

  /** Every character of every line comes from the input. */
  lemma {:induction false} LinesFromInput(s: string, k: nat, j: nat)
    requires k < |Lines(s)| && j < |Lines(s)[k]|
    ensures Lines(s)[k][j] in s
    decreases |s|
  {
    var n := NewlineAt(s);
    if n < |s| {
      if k == 0 {
        assert Lines(s)[0][j] == s[..n][j];
      } else {
        assert Lines(s)[k] == Lines(s[n + 1..])[k - 1];
        LinesFromInput(s[n + 1..], k - 1, j);
      }
    }
  }

  /** Empty or blank input counts as machine code. */
  lemma BlankIsMachineCode(s: string)
    requires AllWhitespace(s)
    ensures IsMachineCode(s)
  {
    var ls := Lines(s);
    forall k | 0 <= k < |ls|
      ensures LineAccepted(ls[k])
    {
      var t := Trim(ls[k]);
      TrimSpec(ls[k]);
      var i :| TrimmedAt(ls[k], t, i);
      if t != [] {
        assert ls[k][i] == t[0];
        LinesFromInput(s, k, i);
      }
    }
  }

  /** A text of one line is machine code exactly when that line passes. */
  lemma SingleLine(l: string)
    requires '\n' !in l
    ensures IsMachineCode(l) <==> LineAccepted(l)
  {
    if l == [] {
      assert Trim(l) == [];
    } else {
      assert NewlineAt(l) == |l|;
      assert Lines(l) == [l];
      assert Lines(l)[0] == l;
    }
  }

  /** Dropping a carriage return before the line feed does not change
      whether a line passes. */
  lemma StripReturnAccepted(l: string)
    ensures LineAccepted(StripReturn(l)) <==> LineAccepted(l)
  {
    if l != [] && l[|l| - 1] == '\r' {
      assert l == l[..|l| - 1] + "\r";
      TrimDropsReturn(l[..|l| - 1]);
    }
  }

  /** Adding a line in front decides machine code by that line and the rest:
      one offending line sends the whole text to the assembler. */
  lemma LeadingLine(l: string, rest: string)
    requires '\n' !in l
    ensures IsMachineCode(l + "\n" + rest) <==> LineAccepted(l) && IsMachineCode(rest)
  {
    var s := l + "\n" + rest;
    LinesCons(l, rest);
    StripReturnAccepted(l);
    var ls, rs := Lines(s), Lines(rest);
    assert ls == [StripReturn(l)] + rs;
    assert LineAccepted(ls[0]) <==> LineAccepted(l);
    assert forall k :: 0 <= k < |rs| ==> rs[k] == ls[k + 1];
    if IsMachineCode(s) {
      assert LineAccepted(ls[0]);
      forall k | 0 <= k < |rs|
        ensures LineAccepted(rs[k])
      {
        assert rs[k] == ls[k + 1];
      }
    }
    if LineAccepted(l) && IsMachineCode(rest) {
      assert forall k :: 1 <= k < |ls| ==> ls[k] == rs[k - 1];
    }
  }

  /** `Watch` (batpu2-cli/src/run.rs:65-69): remembers the last value its
      function produced, so the screen is redrawn only when it changes. */
  datatype Watch<!T, R> = Watch(value: Option<R>, func: T -> R)

  /** `Watch::new`: nothing observed yet. */
  function NewWatch<T, R>(func: T -> R): (w: Watch<T, R>)
    ensures w.value.None? && w.func == func
  {
    Watch(None, func)
  }

  /** `Watch::changed`: store the value for `arg`, and report it exactly
      when it differs from the one stored before. */
  function Changed<T, R(==)>(w: Watch<T, R>, arg: T): (res: (Watch<T, R>, Option<R>))
    ensures res.0.value == Some(w.func(arg)) && res.0.func == w.func
    ensures res.1.Some? <==> w.value != Some(w.func(arg))
    ensures res.1.Some? ==> res.1 == res.0.value
  {
    var now := Some(w.func(arg));
    (w.(value := now), if now != w.value then now else None)
  }

  /** `Watch::reset`: forget the stored value. */
  function Reset<T, R>(w: Watch<T, R>): (w': Watch<T, R>)
    ensures w'.value.None? && w'.func == w.func
  {
    w.(value := None)
  }

  /** The first observation of a fresh watch is always reported. */
  lemma FirstChangeReported<T, R>(func: T -> R, arg: T)
    ensures Changed(NewWatch(func), arg).1 == Some(func(arg))
  {
  }

  /** Observing the same value twice in a row reports nothing the second
      time. */
  lemma RepeatQuiet<T, R>(w: Watch<T, R>, arg: T, arg': T)
    requires w.func(arg) == w.func(arg')
    ensures Changed(Changed(w, arg).0, arg').1 == None
  {
  }

  /** After a reset the next observation is reported again. */
  lemma ResetReports<T, R>(w: Watch<T, R>, arg: T)
    ensures Changed(Reset(w), arg).1 == Some(w.func(arg))
  {
  }

  /** A run of observations: the watch afterwards and what each step
      reported. It models no function of its own; it is the sequence of
      `changed` calls the front end makes, stated so that
      `ObserveReportsChanges` can speak about a whole run. */
  function Observe<T, R(==)>(w: Watch<T, R>, args: seq<T>): (res: (Watch<T, R>, seq<Option<R>>))
    ensures |res.1| == |args| && res.0.func == w.func
    decreases |args|
  {
    if args == [] then (w, [])
    else
      var (w1, r) := Changed(w, args[0]);
      var (wn, rs) := Observe(w1, args[1..]);
      (wn, [r] + rs)
  }

  /** Over a run, the watch ends holding the last value, and each step is
      reported exactly when its value differs from the step before (the
      first step: from what the watch held). */
  lemma {:induction false} ObserveReportsChanges<T, R>(w: Watch<T, R>, args: seq<T>)
    ensures args != [] ==> Observe(w, args).0.value == Some(w.func(args[|args| - 1]))
    ensures args == [] ==> Observe(w, args).0 == w
    ensures args != [] ==> (Observe(w, args).1[0].Some? <==> w.value != Some(w.func(args[0])))
    ensures forall k :: 0 < k < |args| ==>
      (Observe(w, args).1[k].Some? <==> w.func(args[k]) != w.func(args[k - 1]))
    decreases |args|
  {
    if args != [] {
      var w1 := Changed(w, args[0]).0;
      ObserveReportsChanges(w1, args[1..]);
      var rs := Observe(w, args).1;
      assert rs[1..] == Observe(w1, args[1..]).1;
      forall k | 0 < k < |args|
        ensures rs[k].Some? <==> w.func(args[k]) != w.func(args[k - 1])
      {
        assert rs[k] == Observe(w1, args[1..]).1[k - 1];
        if k == 1 {
          assert w1.value == Some(w.func(args[0]));
        } else {
          assert args[1..][k - 1] == args[k] && args[1..][k - 2] == args[k - 1];
        }
      }
      if |args| > 1 {
        assert args[1..][|args| - 2] == args[|args| - 1];
      }
    }
  }
}
