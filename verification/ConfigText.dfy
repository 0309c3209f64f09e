/** The lexical layer of the configuration file (src/core/config.cpp:11-112): escaping,
    field and line splitting, decimal numbers; each writer with the reader that undoes it. */
module ConfigText {

  // ---------------------------------------------------------------- folding over lines

  function Fold<S, E>(f: (S, E) -> S, s: S, es: seq<E>): S
    decreases es
  {
    if es == [] then s else Fold(f, f(s, es[0]), es[1..])
  }

  lemma {:induction false} FoldConcat<S, E>(f: (S, E) -> S, s: S, a: seq<E>, b: seq<E>)
    ensures Fold(f, s, a + b) == Fold(f, Fold(f, s, a), b)
    decreases a
  {
    if a == [] {
      assert a + b == b;
    } else {
      assert (a + b)[1..] == a[1..] + b;
      FoldConcat(f, f(s, a[0]), a[1..], b);
    }
  }

  function Map<A, B>(g: A -> B, xs: seq<A>): seq<B>
    decreases xs
  {
    if xs == [] then [] else [g(xs[0])] + Map(g, xs[1..])
  }

  lemma {:induction false} MapForall<A(!new), B>(g: A -> B, xs: seq<A>, p: B -> bool)
    requires forall x :: p(g(x))
    ensures forall i :: 0 <= i < |Map(g, xs)| ==> p(Map(g, xs)[i])
    decreases xs
  {
    if xs != [] { MapForall(g, xs[1..], p); }
  }

  lemma FoldCons<S, E>(f: (S, E) -> S, s: S, e: E, es: seq<E>, t: S)
    requires f(s, e) == t
    ensures Fold(f, s, [e] + es) == Fold(f, t, es)
  {
    assert ([e] + es)[1..] == es;
  }

  /** A fold ends where a chain of single steps leads. */
  lemma {:induction false} FoldTrace<S, E>(f: (S, E) -> S, states: seq<S>, es: seq<E>)
    requires |states| == |es| + 1
    requires forall i :: 0 <= i < |es| ==> f(states[i], es[i]) == states[i + 1]
    ensures Fold(f, states[0], es) == states[|es|]
    decreases es
  {
    if es != [] { FoldTrace(f, states[1..], es[1..]); }
  }

  // ---------------------------------------------------------------- escaping

  function EscChar(c: char): string {
    if c == '\\' then "\\\\" else if c == '|' then "\\p"
    else if c == '\n' then "\\n" else if c == '\r' then "\\r" else [c]
  }

  function Esc(s: string): string {
    if s == [] then [] else EscChar(s[0]) + Esc(s[1..])
  }

  function UnescChar(c: char): char {
    if c == 'p' then '|' else if c == 'n' then '\n' else if c == 'r' then '\r' else c
  }

  function Unesc(s: string): string {
    if s == [] then []
    else if s[0] == '\\' && |s| > 1 then [UnescChar(s[1])] + Unesc(s[2..])
    else [s[0]] + Unesc(s[1..])
  }

  /** Characters that have a meaning to the format. */
  predicate Plain(c: char) { c != '|' && c != '\n' && c != '\r' }

  ghost predicate Clean(s: string) { forall i :: 0 <= i < |s| ==> Plain(s[i]) }

  lemma {:induction false} EscIsClean(s: string)
    ensures Clean(Esc(s))
  {
    if s != [] { EscIsClean(s[1..]); }
  }

  lemma {:induction false} UnescOfEsc(s: string)
    ensures Unesc(Esc(s)) == s
  {
    if s != [] {
      UnescOfEsc(s[1..]);
      var e, rest := EscChar(s[0]), Esc(s[1..]);
      assert |e| == 1 ==> (e + rest)[1..] == rest;
      assert |e| == 2 ==> (e + rest)[2..] == rest;
    }
  }

  /** The escapes of the format, character by character; an unknown escape keeps its
      character and a backslash at the end is kept. */
  lemma EscapesAre()
    ensures Esc("\\") == "\\\\" && Esc("|") == "\\p" && Esc("\n") == "\\n" && Esc("\r") == "\\r"
    ensures forall c: char :: c != '\\' && c != '|' && c != '\n' && c != '\r' ==> Esc([c]) == [c]
    ensures forall s, t {:trigger Esc(s + t)} :: Esc(s + t) == Esc(s) + Esc(t)
    ensures Unesc("\\x") == "x" && Unesc("\\") == "\\"
  {
    OneEscape('\\');
    OneEscape('|');
    OneEscape('\n');
    OneEscape('\r');
    forall c: char
      ensures Esc([c]) == EscChar(c)
    {
      OneEscape(c);
    }
    forall s, t
      ensures Esc(s + t) == Esc(s) + Esc(t)
    {
      EscAppend(s, t);
    }
    assert "\\x"[2..] == "" && "\\"[1..] == "";
  }

  lemma OneEscape(c: char)
    ensures Esc([c]) == EscChar(c)
  {
    assert [c][1..] == [];
  }

  lemma {:induction false} EscAppend(s: string, t: string)
    ensures Esc(s + t) == Esc(s) + Esc(t)
  {
    if s == [] {
      assert s + t == t;
    } else {
      assert (s + t)[1..] == s[1..] + t;
      EscAppend(s[1..], t);
    }
  }

  method Escape(s: string) returns (out: string)
    ensures out == Esc(s)
  {
    out := "";
    for i := 0 to |s|
      invariant out + Esc(s[i..]) == Esc(s)
    {
      assert s[i..][1..] == s[i + 1..];
      assert out + (EscChar(s[i]) + Esc(s[i + 1..])) == (out + EscChar(s[i])) + Esc(s[i + 1..]);
      out := out + EscChar(s[i]);
    }
  }

  method Unescape(s: string) returns (out: string)
    ensures out == Unesc(s)
  {
    out := "";
    var i := 0;
    while i < |s|
      invariant 0 <= i <= |s|
      invariant out + Unesc(s[i..]) == Unesc(s)
    {
      if s[i] == '\\' && i + 1 < |s| {
        assert s[i..][2..] == s[i + 2..];
        assert out + ([UnescChar(s[i + 1])] + Unesc(s[i + 2..])) == (out + [UnescChar(s[i + 1])]) + Unesc(s[i + 2..]);
        i := i + 1;
        out := out + [UnescChar(s[i])];
      } else {
        assert s[i..][1..] == s[i + 1..];
        assert out + ([s[i]] + Unesc(s[i + 1..])) == (out + [s[i]]) + Unesc(s[i + 1..]);
        out := out + [s[i]];
      }
      i := i + 1;
    }
  }

  // ---------------------------------------------------------------- fields

  function Join(fields: seq<string>): string {
    if fields == [] then ""
    else if |fields| == 1 then Esc(fields[0])
    else Esc(fields[0]) + "|" + Join(fields[1..])
  }

  /** The splitting loop with `cur` collected so far. */
  function SplitFrom(s: string, cur: string): seq<string> {
    if s == [] then [Unesc(cur)]
    else if s[0] == '|' then [Unesc(cur)] + SplitFrom(s[1..], "")
    else SplitFrom(s[1..], cur + [s[0]])
  }

  function Split(s: string): seq<string> { if s == [] then [] else SplitFrom(s, "") }

  lemma {:induction false} SplitSkipsClean(a: string, t: string, cur: string)
    requires Clean(a)
    ensures SplitFrom(a + t, cur) == SplitFrom(t, cur + a)
  {
    if a == [] {
      assert a + t == t && cur + a == cur;
    } else {
      assert Plain(a[0]);
      assert (a + t)[1..] == a[1..] + t;
      SplitSkipsClean(a[1..], t, cur + [a[0]]);
      assert cur + [a[0]] + a[1..] == cur + a;
    }
  }

  lemma {:induction false} SplitFromOfJoin(fields: seq<string>)
    requires fields != []
    ensures SplitFrom(Join(fields), "") == fields
  {
    var e := Esc(fields[0]);
    EscIsClean(fields[0]);
    UnescOfEsc(fields[0]);
    assert "" + e == e;
    if |fields| == 1 {
      SplitSkipsClean(e, "", "");
      assert e + "" == e;
      assert fields == [fields[0]];
    } else {
      var rest := Join(fields[1..]);
      SplitSkipsClean(e, "|" + rest, "");
      assert Join(fields) == e + ("|" + rest);
      assert ("|" + rest)[1..] == rest;
      SplitFromOfJoin(fields[1..]);
      assert fields == [fields[0]] + fields[1..];
    }
  }

  /** Field lists survive exactly when they are not the list of one empty field. */
  lemma SplitOfJoin(fields: seq<string>)
    ensures Split(Join(fields)) == fields <==> fields != [""]
  {
    if fields != [] {
      SplitFromOfJoin(fields);
      if |fields| == 1 && fields[0] != "" { assert Join(fields) != ""; }
      if fields == [""] { assert Join(fields) == ""; }
    }
  }

  method JoinFields(fields: seq<string>) returns (out: string)
    ensures out == Join(fields)
  {
    out := "";
    for i := 0 to |fields|
      invariant out == Join(fields[..i])
    {
      JoinSnoc(fields[..i], fields[i]);
      assert fields[..i + 1] == fields[..i] + [fields[i]];
      if i > 0 { out := out + "|"; }
      var e := Escape(fields[i]);
      out := out + e;
    }
    assert fields[..|fields|] == fields;
  }

  lemma {:induction false} JoinSnoc(fields: seq<string>, f: string)
    ensures Join(fields + [f]) == (if fields == [] then "" else Join(fields) + "|") + Esc(f)
  {
    if |fields| == 1 {
      assert (fields + [f])[1..] == [f];
    } else if |fields| > 1 {
      assert (fields + [f])[1..] == fields[1..] + [f];
      JoinSnoc(fields[1..], f);
    }
  }

  method SplitFields(s: string) returns (out: seq<string>)
    ensures out == Split(s)
  {
    out := [];
    if s == "" { return; }
    var cur := "";
    for i := 0 to |s|
      invariant out + SplitFrom(s[i..], cur) == SplitFrom(s, "")
    {
      assert s[i..][1..] == s[i + 1..];
      if s[i] == '|' {
        var u := Unescape(cur);
        assert out + ([u] + SplitFrom(s[i + 1..], "")) == (out + [u]) + SplitFrom(s[i + 1..], "");
        out := out + [u];
        cur := "";
      } else {
        cur := cur + [s[i]];
      }
    }
    var u := Unescape(cur);
    out := out + [u];
  }

  // ---------------------------------------------------------------- lines

  /** A carriage return before the line end is dropped. */
  function Chomp(cur: string): string {
    if cur != [] && cur[|cur| - 1] == '\r' then cur[..|cur| - 1] else cur
  }

  function LinesFrom(s: string, cur: string): seq<string> {
    if s == [] then if cur == [] then [] else [Chomp(cur)]
    else if s[0] == '\n' then [Chomp(cur)] + LinesFrom(s[1..], "")
    else LinesFrom(s[1..], cur + [s[0]])
  }

  function Unlines(lines: seq<string>): string {
    if lines == [] then "" else lines[0] + "\n" + Unlines(lines[1..])
  }

  /** A line the format can carry. */
  ghost predicate OneLine(s: string) {
    (forall i :: 0 <= i < |s| ==> s[i] != '\n') && Chomp(s) == s
  }

  lemma {:induction false} LinesSkip(a: string, t: string, cur: string)
    requires forall i :: 0 <= i < |a| ==> a[i] != '\n'
    ensures LinesFrom(a + t, cur) == LinesFrom(t, cur + a)
  {
    if a == [] {
      assert a + t == t && cur + a == cur;
    } else {
      assert (a + t)[1..] == a[1..] + t;
      LinesSkip(a[1..], t, cur + [a[0]]);
      assert cur + [a[0]] + a[1..] == cur + a;
    }
  }

  lemma LineThenRest(line: string, rest: string)
    requires forall i :: 0 <= i < |line| ==> line[i] != '\n'
    ensures LinesFrom(line + ("\n" + rest), "") == [Chomp(line)] + LinesFrom(rest, "")
  {
    LinesSkip(line, "\n" + rest, "");
    assert "" + line == line && ("\n" + rest)[1..] == rest;
  }

  lemma {:induction false} LinesOfUnlines(lines: seq<string>)
    requires forall i :: 0 <= i < |lines| ==> OneLine(lines[i])
    ensures LinesFrom(Unlines(lines), "") == lines
  {
    if lines != [] {
      var rest := Unlines(lines[1..]);
      LineThenRest(lines[0], rest);
      assert Unlines(lines) == lines[0] + ("\n" + rest);
      LinesOfUnlines(lines[1..]);
      assert lines == [lines[0]] + lines[1..];
    }
  }

  /** The same with carriage returns before the line ends: they are dropped. */
  function UnlinesCr(lines: seq<string>): string {
    if lines == [] then "" else lines[0] + "\r\n" + UnlinesCr(lines[1..])
  }

  lemma {:induction false} LinesOfCrLf(lines: seq<string>)
    requires forall i, j :: 0 <= i < |lines| && 0 <= j < |lines[i]| ==> lines[i][j] != '\n'
    ensures LinesFrom(UnlinesCr(lines), "") == lines
  {
    if lines != [] {
      var line, rest := lines[0] + "\r", UnlinesCr(lines[1..]);
      LineThenRest(line, rest);
      assert UnlinesCr(lines) == line + ("\n" + rest);
      assert line[..|line| - 1] == lines[0];
      LinesOfCrLf(lines[1..]);
      assert lines == [lines[0]] + lines[1..];
    }
  }

  /** A last line without a line end is a line. */
  lemma {:induction false} LastLineNeedsNoEnd(lines: seq<string>, last: string)
    requires forall i :: 0 <= i < |lines| ==> OneLine(lines[i])
    requires last != "" && OneLine(last)
    ensures LinesFrom(Unlines(lines) + last, "") == lines + [last]
  {
    if lines == [] {
      LinesSkip(last, "", "");
      assert last + "" == last && "" + last == last && Unlines(lines) + last == last;
    } else {
      var rest := Unlines(lines[1..]) + last;
      LineThenRest(lines[0], rest);
      assert Unlines(lines) + last == lines[0] + ("\n" + rest);
      LastLineNeedsNoEnd(lines[1..], last);
      assert lines + [last] == [lines[0]] + (lines[1..] + [last]);
    }
  }

  method SplitLines(text: string) returns (lines: seq<string>)
    ensures lines == LinesFrom(text, "")
  {
    lines := [];
    var cur := "";
    for i := 0 to |text|
      invariant lines + LinesFrom(text[i..], cur) == LinesFrom(text, "")
    {
      assert text[i..][1..] == text[i + 1..];
      if text[i] == '\n' {
        assert lines + ([Chomp(cur)] + LinesFrom(text[i + 1..], ""))
            == (lines + [Chomp(cur)]) + LinesFrom(text[i + 1..], "");
        if |cur| > 0 && cur[|cur| - 1] == '\r' { cur := cur[..|cur| - 1]; }
        lines := lines + [cur];
        cur := "";
      } else {
        cur := cur + [text[i]];
      }
    }
    if |cur| > 0 {
      if cur[|cur| - 1] == '\r' { cur := cur[..|cur| - 1]; }
      lines := lines + [cur];
    }
  }

  // ---------------------------------------------------------------- numbers

  const I32_MIN: int := -0x8000_0000
  const I32_MAX: int := 0x7FFF_FFFF

  predicate IsDigit(c: char) { '0' <= c <= '9' }

  function DigitValue(c: char): nat
    requires IsDigit(c)
  {
    c as int - '0' as int
  }

  function DigitChar(d: nat): (c: char)
    requires d < 10
    ensures IsDigit(c) && DigitValue(c) == d
  {
    ('0' as int + d) as char
  }

  /** Decimal digits of `std::to_string`. */
  function Digits(n: nat): (s: string)
    ensures s != []
  {
    if n < 10 then [DigitChar(n)] else Digits(n / 10) + [DigitChar(n % 10)]
  }

  function ToString(n: int): string { if n < 0 then "-" + Digits(-n) else Digits(n) }

  /** The digit loop: stops at the first other character. */
  function ReadFrom(s: string, v: nat): nat {
    if s == [] || !IsDigit(s[0]) then v else ReadFrom(s[1..], 10 * v + DigitValue(s[0]))
  }

  function ReadU16From(s: string, v: nat): nat {
    if s == [] || !IsDigit(s[0]) then v
    else if 10 * v + DigitValue(s[0]) > 65535 then 65535
    else ReadU16From(s[1..], 10 * v + DigitValue(s[0]))
  }

  /** The value after the loop, narrowed to 32 bits. */
  function Narrow(v: int): int {
    (v + 0x8000_0000) % 0x1_0000_0000 - 0x8000_0000
  }

  predicate Signed(s: string) { s != [] && (s[0] == '-' || s[0] == '+') }

  function ReadI32(s: string): int {
    var v: int := ReadFrom(if Signed(s) then s[1..] else s, 0);
    Narrow(if Signed(s) && s[0] == '-' then -v else v)
  }

  /** Every value the digit loop holds is at most `max`. */
  predicate StaysWithin(s: string, v: nat, max: nat) {
    v <= max && (s == [] || !IsDigit(s[0]) || StaysWithin(s[1..], 10 * v + DigitValue(s[0]), max))
  }

  ghost predicate AllDigits(s: string) { forall i :: 0 <= i < |s| ==> IsDigit(s[i]) }

  lemma {:induction false} ReadSnoc(s: string, d: char, v: nat)
    requires AllDigits(s) && IsDigit(d)
    ensures ReadFrom(s + [d], v) == 10 * ReadFrom(s, v) + DigitValue(d)
  {
    if s == [] {
      assert s + [d] == [d];
      assert ReadFrom([d], v) == ReadFrom([d][1..], 10 * v + DigitValue(d));
    } else {
      assert (s + [d])[1..] == s[1..] + [d];
      ReadSnoc(s[1..], d, 10 * v + DigitValue(s[0]));
    }
  }

  lemma {:induction false} ReadOfDigits(n: nat)
    ensures AllDigits(Digits(n)) && ReadFrom(Digits(n), 0) == n
  {
    if n < 10 {
      assert ReadFrom([DigitChar(n)], 0) == ReadFrom([], n);
    } else {
      ReadOfDigits(n / 10);
      ReadSnoc(Digits(n / 10), DigitChar(n % 10), 0);
    }
  }

  /** On a digit string the loop's values only grow, so the last one bounds them all. */
  lemma {:induction false} LastIsLargest(s: string, v: nat, max: nat)
    requires AllDigits(s)
    ensures v <= ReadFrom(s, v)
    ensures StaysWithin(s, v, max) <==> ReadFrom(s, v) <= max
  {
    if s != [] { LastIsLargest(s[1..], 10 * v + DigitValue(s[0]), max); }
  }

  lemma {:induction false} NoClamp(s: string, v: nat)
    requires AllDigits(s) && ReadFrom(s, v) <= 65535
    ensures ReadU16From(s, v) == ReadFrom(s, v)
  {
    if s != [] {
      LastIsLargest(s[1..], 10 * v + DigitValue(s[0]), 65535);
      NoClamp(s[1..], 10 * v + DigitValue(s[0]));
    }
  }

  lemma U16RoundTrip(n: nat)
    requires n <= 65535
    ensures ReadU16From(ToString(n), 0) == n
  {
    ReadOfDigits(n);
    NoClamp(Digits(n), 0);
  }

  lemma I32RoundTrip(n: int)
    requires I32_MIN <= n <= I32_MAX
    ensures ReadI32(ToString(n)) == n
  {
    if n < 0 {
      ReadOfDigits(-n);
      assert ToString(n)[1..] == Digits(-n);
    } else {
      ReadOfDigits(n);
      assert IsDigit(Digits(n)[0]);
    }
  }

  // What the readers make of text that is not exactly a printed number.

  /** What may follow the digits of a number. */
  predicate Stops(rest: string) { rest == [] || !IsDigit(rest[0]) }

  lemma {:induction false} ReadStops(s: string, rest: string, v: nat)
    requires AllDigits(s) && Stops(rest)
    ensures ReadFrom(s + rest, v) == ReadFrom(s, v)
  {
    if s == [] {
      assert s + rest == rest;
    } else {
      assert (s + rest)[1..] == s[1..] + rest;
      ReadStops(s[1..], rest, 10 * v + DigitValue(s[0]));
    }
  }

  lemma {:induction false} ReadGrows(s: string, v: nat)
    ensures v <= ReadFrom(s, v)
  {
    if s != [] && IsDigit(s[0]) { ReadGrows(s[1..], 10 * v + DigitValue(s[0])); }
  }

  lemma {:induction false} U16Clamps(s: string, v: nat)
    requires v <= 65535
    ensures ReadU16From(s, v) == if ReadFrom(s, v) <= 65535 then ReadFrom(s, v) else 65535
  {
    if s != [] && IsDigit(s[0]) {
      var w := 10 * v + DigitValue(s[0]);
      ReadGrows(s[1..], w);
      if w <= 65535 { U16Clamps(s[1..], w); }
    }
  }

  /** A port is the number its leading digits denote, at most 65535, whatever follows them. */
  lemma U16ReadsLeadingDigits(n: nat, rest: string)
    requires Stops(rest)
    ensures ReadU16From(Digits(n) + rest, 0) == if n <= 65535 then n else 65535
  {
    ReadOfDigits(n);
    ReadStops(Digits(n), rest, 0);
    U16Clamps(Digits(n) + rest, 0);
  }

  /** A signed number is its sign applied to its leading digits, reduced to 32 bits. */
  lemma I32ReadsLeadingDigits(n: nat, rest: string)
    requires Stops(rest)
    ensures ReadI32(Digits(n) + rest) == Narrow(n)
    ensures ReadI32("+" + (Digits(n) + rest)) == Narrow(n)
    ensures ReadI32("-" + (Digits(n) + rest)) == Narrow(-(n as int))
  {
    ReadOfDigits(n);
    ReadStops(Digits(n), rest, 0);
    var s := Digits(n) + rest;
    assert IsDigit(s[0]);
    assert ("+" + s)[1..] == s && ("-" + s)[1..] == s;
  }

  /** The reduction is to the 32-bit integer that differs by a multiple of 2^32. */
  lemma NarrowIsModular(v: int)
    ensures I32_MIN <= Narrow(v) <= I32_MAX && (v - Narrow(v)) % 0x1_0000_0000 == 0
  {
    assert v - Narrow(v) == (v + 0x8000_0000) / 0x1_0000_0000 * 0x1_0000_0000;
  }

  /** Reading a printed number never overflows a 64-bit `long`, and overflows a 32-bit one
      exactly for -2^31. */
  lemma PrintedNumbersFitLong(n: int)
    requires I32_MIN <= n <= I32_MAX
    ensures var digits := if n < 0 then ToString(n)[1..] else ToString(n);
            && StaysWithin(digits, 0, 0x7FFF_FFFF_FFFF_FFFF)
            && (StaysWithin(digits, 0, 0x7FFF_FFFF) <==> n != I32_MIN)
  {
    var m := if n < 0 then -n else n;
    if n < 0 { assert ToString(n)[1..] == Digits(-n); }
    ReadOfDigits(m);
    LastIsLargest(Digits(m), 0, 0x7FFF_FFFF_FFFF_FFFF);
    LastIsLargest(Digits(m), 0, 0x7FFF_FFFF);
  }

  method ToU16(s: string) returns (r: nat)
    ensures r == ReadU16From(s, 0)
  {
    var v: nat := 0;
    var i := 0;
    while i < |s|
      invariant 0 <= i <= |s| && v <= 65535
      invariant ReadU16From(s[i..], v) == ReadU16From(s, 0)
    {
      assert s[i..][1..] == s[i + 1..];
      if s[i] < '0' || s[i] > '9' { break; }
      v := v * 10 + DigitValue(s[i]);
      if v > 65535 { return 65535; }
      i := i + 1;
    }
    r := v;
  }

  method ToI32(s: string) returns (r: int)
    ensures r == ReadI32(s)
  {
    var v := 0;
    var neg := false;
    var i := 0;
    if i < |s| && (s[i] == '-' || s[i] == '+') {
      neg := s[i] == '-';
      i := i + 1;
    }
    ghost var digits := s[i..];
    while i < |s|
      invariant 0 <= i <= |s| && v >= 0
      invariant ReadFrom(s[i..], v) == ReadFrom(digits, 0)
    {
      assert s[i..][1..] == s[i + 1..];
      if s[i] < '0' || s[i] > '9' { break; }
      v := v * 10 + DigitValue(s[i]);
      i := i + 1;
    }
    r := Narrow(if neg then -v else v);
  }
}
