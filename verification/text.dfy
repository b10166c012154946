/** The JavaScript string primitives the core relies on, stated over
    `seq<char>`: white space as the regular-expression class `\s` sees it,
    `String.prototype.trim`, the three `split` calls the source makes, the
    `Number(...)` conversion of a token and `parseFloat` of a numeric run.
    Number-to-string conversion is not modelled; `ShowInt` prints integers,
    which is enough to state round trips. */
module Text {
  import opened Wrappers

  /** A JavaScript number where `NaN` can be stored. */
  datatype Number = NaN | Finite(value: real)

  // ---------------------------------------------------------------------
  // Character classes
  // ---------------------------------------------------------------------

  /** ECMAScript WhiteSpace or LineTerminator: the characters `\s` matches
      and `trim` removes. */
  predicate IsSpace(c: char) {
    var n := c as int;
    n == 0x09 || n == 0x0A || n == 0x0B || n == 0x0C || n == 0x0D || n == 0x20
    || n == 0xA0 || n == 0x1680 || (0x2000 <= n <= 0x200A)
    || n == 0x2028 || n == 0x2029 || n == 0x202F || n == 0x205F
    || n == 0x3000 || n == 0xFEFF
  }

  /** A character of the class `[\s,]`. */
  predicate IsSeparator(c: char) {
    IsSpace(c) || c == ','
  }

  predicate IsDigit(c: char) {
    '0' <= c <= '9'
  }

  function DigitVal(c: char): nat
    requires IsDigit(c)
  {
    (c as int) - ('0' as int)
  }

  function DigitChar(d: nat): (c: char)
    requires d < 10
    ensures IsDigit(c) && DigitVal(c) == d
  {
    (('0' as int) + d) as char
  }

  predicate SeparatorFree(s: string) {
    forall i :: 0 <= i < |s| ==> !IsSeparator(s[i])
  }

  predicate AllDigits(s: string) {
    forall i :: 0 <= i < |s| ==> IsDigit(s[i])
  }

  // ---------------------------------------------------------------------
  // Trimming
  // ---------------------------------------------------------------------

  /** Drops the leading white space of `s`. */
  function SkipSpaces(s: string): (r: string)
    ensures |r| <= |s| && r == s[|s| - |r|..]
    ensures forall i :: 0 <= i < |s| - |r| ==> IsSpace(s[i])
    ensures r == [] || !IsSpace(r[0])
  {
    if s != [] && IsSpace(s[0]) then SkipSpaces(s[1..]) else s
  }

  /** Drops the trailing white space of `s`. */
  function TrimEnd(s: string): (r: string)
    ensures |r| <= |s| && r == s[..|r|]
    ensures forall i :: |r| <= i < |s| ==> IsSpace(s[i])
    ensures r == [] || !IsSpace(r[|r| - 1])
  {
    if s != [] && IsSpace(s[|s| - 1]) then TrimEnd(s[..|s| - 1]) else s
  }

  /** `String.prototype.trim`. */
  function Trim(s: string): (r: string)
    ensures r == [] || (!IsSpace(r[0]) && !IsSpace(r[|r| - 1]))
  {
    TrimEnd(SkipSpaces(s))
  }

  /** A string that starts and ends with a non-space character is left
      alone by `trim`. */
  lemma TrimKeeps(s: string)
    requires s == [] || (!IsSpace(s[0]) && !IsSpace(s[|s| - 1]))
    ensures Trim(s) == s
  {
  }

  /** `r` is the piece of `s` that starts at `k`, and everything before
      and after it is white space. */
  predicate SpaceAround(s: string, k: int, r: string) {
    && 0 <= k && k + |r| <= |s| && r == s[k..k + |r|]
    && (forall i :: 0 <= i < k ==> IsSpace(s[i]))
    && (forall i :: k + |r| <= i < |s| ==> IsSpace(s[i]))
  }

  /** `trim` removes white space at both ends and nothing else: the result
      is one contiguous piece of `s` with only white space around it. */
  lemma TrimSpan(s: string)
    ensures SpaceAround(s, |s| - |SkipSpaces(s)|, Trim(s))
  {
    var u := SkipSpaces(s);
    var r := TrimEnd(u);
    assert Trim(s) == r;
    PieceOfSuffix(s, u, r);
  }

  /** A prefix `r` of a suffix `u` of `s`, with white space before `u` and
      after `r`, has only white space around it in `s`. */
  lemma PieceOfSuffix(s: string, u: string, r: string)
    requires |u| <= |s| && u == s[|s| - |u|..]
    requires forall i :: 0 <= i < |s| - |u| ==> IsSpace(s[i])
    requires |r| <= |u| && r == u[..|r|]
    requires forall i :: |r| <= i < |u| ==> IsSpace(u[i])
    ensures SpaceAround(s, |s| - |u|, r)
  {
    var k := |s| - |u|;
    forall j | 0 <= j < |r| ensures r[j] == s[k + j] {
      assert r[j] == u[j];
    }
    forall i | k + |r| <= i < |s| ensures IsSpace(s[i]) {
      assert s[i] == u[i - k];
    }
  }

  // ---------------------------------------------------------------------
  // Splitting and joining
  // ---------------------------------------------------------------------

  /** `s.split(/\s+|,/)`: a maximal run of white space or a single comma
      separates two tokens, so a comma next to a space yields an empty
      token between them. */
  function SplitSpacesOrComma(s: string): (r: seq<string>)
    ensures |r| >= 1
    ensures forall i :: 0 <= i < |r| ==> SeparatorFree(r[i])
    decreases |s|
  {
    if s == [] then [[]]
    else if s[0] == ',' then [[]] + SplitSpacesOrComma(s[1..])
    else if IsSpace(s[0]) then [[]] + SplitSpacesOrComma(SkipSpaces(s))
    else
      var t := SplitSpacesOrComma(s[1..]);
      [[s[0]] + t[0]] + t[1..]
  }

  /** Drops the leading run of `[\s,]` characters of `s`. */
  function SkipSeparators(s: string): (r: string)
    ensures |r| <= |s| && r == s[|s| - |r|..]
    ensures forall i :: 0 <= i < |s| - |r| ==> IsSeparator(s[i])
    ensures r == [] || !IsSeparator(r[0])
  {
    if s != [] && IsSeparator(s[0]) then SkipSeparators(s[1..]) else s
  }

  /** `s.split(/[\s,]+/)`: any maximal run of white space and commas
      separates two tokens. */
  function SplitRuns(s: string): (r: seq<string>)
    ensures |r| >= 1
    ensures forall i :: 0 <= i < |r| ==> SeparatorFree(r[i])
    decreases |s|
  {
    if s == [] then [[]]
    else if IsSeparator(s[0]) then [[]] + SplitRuns(SkipSeparators(s))
    else
      var t := SplitRuns(s[1..]);
      [[s[0]] + t[0]] + t[1..]
  }

  /** `s.split(c)` for a one-character separator. */
  function SplitOn(s: string, c: char): (r: seq<string>)
    ensures |r| >= 1
    ensures forall i, j :: 0 <= i < |r| && 0 <= j < |r[i]| ==> r[i][j] != c
  {
    if s == [] then [[]]
    else if s[0] == c then [[]] + SplitOn(s[1..], c)
    else
      var t := SplitOn(s[1..], c);
      [[s[0]] + t[0]] + t[1..]
  }

  /** A string without white space or commas is a single token for both
      regular-expression splits. */
  lemma {:induction false} SplitSeparatorFree(s: string)
    requires SeparatorFree(s)
    ensures SplitSpacesOrComma(s) == [s] && SplitRuns(s) == [s]
    decreases |s|
  {
    if s != [] {
      assert !IsSeparator(s[0]);
      assert SeparatorFree(s[1..]) by {
        forall i | 0 <= i < |s[1..]| ensures !IsSeparator(s[1..][i]) {
          assert s[1..][i] == s[i + 1];
        }
      }
      SplitSeparatorFree(s[1..]);
      assert [s[0]] + s[1..] == s;
    }
  }

  /** Splitting on a character that does not occur gives the whole string
      as the only part. */
  lemma {:induction false} SplitOnAbsent(s: string, c: char)
    requires forall i :: 0 <= i < |s| ==> s[i] != c
    ensures SplitOn(s, c) == [s]
    decreases |s|
  {
    if s != [] {
      assert s[0] != c;
      assert forall i :: 0 <= i < |s[1..]| ==> s[1..][i] != c by {
        forall i | 0 <= i < |s[1..]| ensures s[1..][i] != c {
          assert s[1..][i] == s[i + 1];
        }
      }
      SplitOnAbsent(s[1..], c);
      assert [s[0]] + s[1..] == s;
    }
  }

  /** `ts.join(sep)`. */
  function Join(ts: seq<string>, sep: string): string
  {
    if |ts| == 0 then []
    else if |ts| == 1 then ts[0]
    else ts[0] + sep + Join(ts[1..], sep)
  }

  /** Four strings joined: each followed by the separator but the last. */
  lemma JoinFour(a: string, b: string, c: string, d: string, sep: string)
    ensures Join([a, b, c, d], sep) == a + sep + (b + sep + (c + sep + d))
  {
    assert Join([d], sep) == d;
    assert [c, d][1..] == [d];
    assert Join([c, d], sep) == c + sep + d;
    assert [b, c, d][1..] == [c, d];
    assert Join([b, c, d], sep) == b + sep + (c + sep + d);
    assert [a, b, c, d][1..] == [b, c, d];
  }

  lemma JoinEmptyHead(t: seq<string>, sep: string)
    requires |t| >= 1
    ensures Join([[]] + t, sep) == sep + Join(t, sep)
  {
    var r := [[]] + t;
    assert r[1..] == t;
    assert r[0] + sep == sep;
  }

  lemma JoinPrependChar(ch: char, t: seq<string>, sep: string)
    requires |t| >= 1
    ensures Join([[ch] + t[0]] + t[1..], sep) == [ch] + Join(t, sep)
  {
    var r := [[ch] + t[0]] + t[1..];
    if |t| > 1 {
      assert r[1..] == t[1..];
    }
  }

  /** Joining the pieces of a one-character split with that character gives
      back the original string. */
  lemma {:induction false} JoinSplitOn(s: string, c: char)
    ensures Join(SplitOn(s, c), [c]) == s
    decreases |s|
  {
    if s != [] {
      var t := SplitOn(s[1..], c);
      JoinSplitOn(s[1..], c);
      if s[0] == c {
        assert SplitOn(s, c) == [[]] + t;
        JoinEmptyHead(t, [c]);
      } else {
        assert SplitOn(s, c) == [[s[0]] + t[0]] + t[1..];
        JoinPrependChar(s[0], t, [c]);
      }
      assert s == [s[0]] + s[1..];
    }
  }

  /** A separator-free prefix glues onto the first token of the rest. */
  lemma {:induction false} SplitSpacesOrCommaPrefix(a: string, s: string)
    requires SeparatorFree(a)
    ensures var t := SplitSpacesOrComma(s);
            SplitSpacesOrComma(a + s) == [a + t[0]] + t[1..]
    decreases |a|
  {
    if a == [] {
      assert a + s == s;
      var t := SplitSpacesOrComma(s);
      assert a + t[0] == t[0];
      assert [t[0]] + t[1..] == t;
    } else {
      var t := SplitSpacesOrComma(s);
      HeadTail(a, s);
      assert !IsSeparator(a[0]);
      SplitSpacesOrCommaPrefix(a[1..], s);
      GlueHead(a, t[0], t[1..]);
    }
  }

  /** The same for `/[\s,]+/`. */
  lemma {:induction false} SplitRunsPrefix(a: string, s: string)
    requires SeparatorFree(a)
    ensures var t := SplitRuns(s);
            SplitRuns(a + s) == [a + t[0]] + t[1..]
    decreases |a|
  {
    if a == [] {
      assert a + s == s;
      var t := SplitRuns(s);
      assert a + t[0] == t[0];
      assert [t[0]] + t[1..] == t;
    } else {
      var t := SplitRuns(s);
      HeadTail(a, s);
      assert !IsSeparator(a[0]);
      SplitRunsPrefix(a[1..], s);
      GlueHead(a, t[0], t[1..]);
    }
  }

  lemma HeadTail(a: string, s: string)
    requires a != []
    ensures a + s != [] && (a + s)[0] == a[0] && (a + s)[1..] == a[1..] + s
  {
  }

  /** Gluing the first character back onto the first token. */
  lemma GlueHead(a: string, t0: string, rest: seq<string>)
    requires a != []
    ensures var t' := [a[1..] + t0] + rest; [[a[0]] + t'[0]] + t'[1..] == [a + t0] + rest
  {
    var t' := [a[1..] + t0] + rest;
    assert t'[0] == a[1..] + t0 && t'[1..] == rest;
    assert [a[0]] + (a[1..] + t0) == a + t0;
  }

  predicate Tokens(ts: seq<string>) {
    forall i :: 0 <= i < |ts| ==> ts[i] != [] && SeparatorFree(ts[i])
  }

  lemma SkipSpacesOfTokens(ts: seq<string>, sep: string)
    requires |ts| >= 1 && Tokens(ts)
    ensures SkipSpaces(Join(ts, sep)) == Join(ts, sep)
    ensures SkipSeparators(Join(ts, sep)) == Join(ts, sep)
  {
    JoinHead(ts, sep);
  }

  /** A join of tokens starts with a character that is no separator. */
  lemma JoinHead(ts: seq<string>, sep: string)
    requires |ts| >= 1 && Tokens(ts)
    ensures Join(ts, sep) != [] && !IsSeparator(Join(ts, sep)[0])
  {
    JoinEnds(ts, sep);
    assert ts[0] != [] && SeparatorFree(ts[0]);
    assert !IsSeparator(ts[0][0]);
  }

  /** A join of non-empty strings starts with the first one's first character and
      ends with the last one's last character. */
  lemma {:induction false} JoinEnds(ts: seq<string>, sep: string)
    requires |ts| >= 1 && forall i :: 0 <= i < |ts| ==> ts[i] != []
    ensures |Join(ts, sep)| >= |ts[0]| && |Join(ts, sep)| >= |ts[|ts| - 1]|
    ensures Join(ts, sep)[0] == ts[0][0]
    ensures Join(ts, sep)[|Join(ts, sep)| - 1] == ts[|ts| - 1][|ts[|ts| - 1]| - 1]
    decreases |ts|
  {
    if |ts| > 1 {
      var j := Join(ts[1..], sep);
      JoinEnds(ts[1..], sep);
      assert Join(ts, sep) == (ts[0] + sep) + j;
    }
  }

  /** A join of tokens has no surrounding white space, so `trim` keeps it. */
  lemma TrimJoin(ts: seq<string>, sep: string)
    requires |ts| >= 1 && Tokens(ts)
    ensures Join(ts, sep) != [] && Trim(Join(ts, sep)) == Join(ts, sep)
  {
    JoinEnds(ts, sep);
    var s := Join(ts, sep);
    assert !IsSeparator(ts[0][0]);
    assert !IsSeparator(ts[|ts| - 1][|ts[|ts| - 1]| - 1]);
    TrimKeeps(s);
  }

  /** Splitting a space-joined list of non-empty tokens on `/\s+|,/` gives
      the tokens back. */
  lemma {:induction false} SplitJoinSpace(ts: seq<string>)
    requires |ts| >= 1 && Tokens(ts)
    ensures SplitSpacesOrComma(Join(ts, " ")) == ts
    decreases |ts|
  {
    if |ts| == 1 {
      SplitSpacesOrCommaPrefix(ts[0], []);
      assert ts[0] + [] == ts[0];
    } else {
      var j := Join(ts[1..], " ");
      SplitJoinSpace(ts[1..]);
      JoinHead(ts[1..], " ");
      SplitSpaceHead(j);
      SplitSpacesOrCommaPrefix(ts[0], " " + j);
      assert Join(ts, " ") == ts[0] + " " + j;
      ConcatAssoc(ts[0], " ", j);
      GlueOntoEmptyHead(ts[0], ts[1..]);
      assert ts == [ts[0]] + ts[1..];
    }
  }

  /** Splitting a list joined with ", " on `/\s+|,/` yields an empty token
      after every original token but the last: `2 * |ts| - 1` tokens. */
  lemma {:induction false} SplitJoinCommaSpace(ts: seq<string>)
    requires |ts| >= 1 && Tokens(ts)
    ensures |SplitSpacesOrComma(Join(ts, ", "))| == 2 * |ts| - 1
    ensures SplitSpacesOrComma(Join(ts, ", "))[0] == ts[0]
    decreases |ts|
  {
    if |ts| == 1 {
      SplitSpacesOrCommaPrefix(ts[0], []);
      assert ts[0] + [] == ts[0];
    } else {
      var j := Join(ts[1..], ", ");
      SplitJoinCommaSpace(ts[1..]);
      JoinHead(ts[1..], ", ");
      SplitCommaSpaceHead(j);
      SplitSpacesOrCommaPrefix(ts[0], ", " + j);
      assert Join(ts, ", ") == ts[0] + ", " + j;
      ConcatAssoc(ts[0], ", ", j);
      assert ts[0] + [] == ts[0];
    }
  }

  /** A single space before a token start is one empty token. */
  lemma SplitSpaceHead(j: string)
    requires j == [] || !IsSeparator(j[0])
    ensures SplitSpacesOrComma(" " + j) == [[]] + SplitSpacesOrComma(j)
  {
    var sj := " " + j;
    assert sj[0] == ' ' && sj[1..] == j;
    assert IsSpace(sj[0]) && sj[0] != ',';
    SkipOneSpace(j);
    assert SplitSpacesOrComma(sj) == [[]] + SplitSpacesOrComma(SkipSpaces(sj));
  }

  lemma SkipOneSpace(j: string)
    requires j == [] || !IsSeparator(j[0])
    ensures SkipSpaces(" " + j) == j
  {
    var sj := " " + j;
    assert sj[0] == ' ' && sj[1..] == j;
  }

  /** ", " before a token start is two empty tokens: one for the comma and
      one for the space. */
  lemma SplitCommaSpaceHead(j: string)
    requires j == [] || !IsSeparator(j[0])
    ensures SplitSpacesOrComma(", " + j) == [[]] + ([[]] + SplitSpacesOrComma(j))
  {
    var sj := ", " + j;
    assert sj[0] == ',' && sj[1..] == " " + j;
    SplitSpaceHead(j);
  }

  /** Splitting on `/[\s,]+/` undoes a join with " " and with ", ". */
  lemma {:induction false} SplitRunsJoin(ts: seq<string>, sep: string)
    requires |ts| >= 1 && Tokens(ts)
    requires sep == " " || sep == ", "
    ensures SplitRuns(Join(ts, sep)) == ts
    decreases |ts|
  {
    if |ts| == 1 {
      SplitRunsPrefix(ts[0], []);
      assert ts[0] + [] == ts[0];
    } else {
      var j := Join(ts[1..], sep);
      SplitRunsJoin(ts[1..], sep);
      SkipSpacesOfTokens(ts[1..], sep);
      SplitRunsStep(ts[0], sep, j);
      assert Join(ts, sep) == ts[0] + sep + j;
      assert ts == [ts[0]] + ts[1..];
    }
  }

  lemma SplitRunsStep(t0: string, sep: string, j: string)
    requires SeparatorFree(t0)
    requires sep == " " || sep == ", "
    requires j == [] || !IsSeparator(j[0])
    ensures SplitRuns(t0 + sep + j) == [t0] + SplitRuns(j)
  {
    var x := sep + j;
    SplitRunsSeparatorHead(sep, j);
    SplitRunsPrefix(t0, x);
    GlueOntoEmptyHead(t0, SplitRuns(j));
    ConcatAssoc(t0, sep, j);
  }

  lemma ConcatAssoc(a: string, b: string, c: string)
    ensures a + b + c == a + (b + c)
  {
  }

  lemma GlueOntoEmptyHead(a: string, rest: seq<string>)
    ensures var t := [[]] + rest; [a + t[0]] + t[1..] == [a] + rest
  {
    var t := [[]] + rest;
    assert t[0] == [] && t[1..] == rest;
    assert a + [] == a;
  }

  lemma SplitRunsSeparatorHead(sep: string, j: string)
    requires sep == " " || sep == ", "
    requires j == [] || !IsSeparator(j[0])
    ensures SplitRuns(sep + j) == [[]] + SplitRuns(j)
  {
    var sj := sep + j;
    assert sj[0] == sep[0] && IsSeparator(sj[0]);
    if sep == " " {
      assert sj[1..] == j;
    } else {
      assert sj[1..] == " " + j;
      assert sj[2..] == j;
    }
  }

  // ---------------------------------------------------------------------
  // Numbers
  // ---------------------------------------------------------------------

  /** Length of the leading run of decimal digits of `s`. */
  function DigitRun(s: string): (n: nat)
    ensures n <= |s|
    ensures AllDigits(s[..n])
    ensures n == |s| || !IsDigit(s[n])
  {
    if s != [] && IsDigit(s[0]) then
      var k := DigitRun(s[1..]);
      assert s[..1 + k] == [s[0]] + s[1..][..k];
      1 + k
    else 0
  }

  /** The value of a string of decimal digits, most significant first. */
  function DigitsValue(ds: string): nat
    requires AllDigits(ds)
  {
    if ds == [] then 0
    else DigitsValue(ds[..|ds| - 1]) * 10 + DigitVal(ds[|ds| - 1])
  }

  /** `m` times ten to the power `k`, one factor of ten at a time. */
  function WithExponent(m: real, k: int): real
    decreases if k < 0 then -k else k
  {
    if k == 0 then m
    else if k > 0 then WithExponent(m, k - 1) * 10.0
    else WithExponent(m, k + 1) / 10.0
  }

  /** A complete exponent part `[eE][+-]?digits`, or nothing at all (value
      0); anything else is not a number. */
  function ExponentOf(s: string): Option<int>
  {
    if s == [] then Some(0)
    else if s[0] != 'e' && s[0] != 'E' then None
    else
      var t := s[1..];
      var neg := t != [] && t[0] == '-';
      var u := if t != [] && (t[0] == '+' || t[0] == '-') then t[1..] else t;
      if u != [] && AllDigits(u) then
        Some(if neg then -(DigitsValue(u) as int) else DigitsValue(u) as int)
      else None
  }

  /** The mantissa `digits[.digits]` or `.digits` at the head of `u`, as
      `(length, value)`; length 0 when `u` does not start with one. */
  function MantissaPrefix(u: string): (r: (nat, real))
    ensures r.0 <= |u|
  {
    var a := DigitRun(u);
    if a < |u| && u[a] == '.' then
      var f := DigitRun(u[a + 1..]);
      if a + f == 0 then (0, 0.0)
      else
        var digits := u[..a] + u[a + 1..][..f];
        (a + 1 + f, WithExponent(DigitsValue(digits) as real, -(f as int)))
    else if a == 0 then (0, 0.0)
    else (a, DigitsValue(u[..a]) as real)
  }

  /** An unsigned decimal literal with optional fraction and exponent
      (`12`, `1.5`, `.5`, `5.`, `2e3`), or not a number. */
  function UnsignedDecimal(u: string): Option<real>
  {
    var m := MantissaPrefix(u);
    if m.0 == 0 then None
    else
      match ExponentOf(u[m.0..])
      case None => None
      case Some(k) => Some(WithExponent(m.1, k))
  }

  predicate IsRadixDigit(c: char, base: nat) {
    if base == 16 then IsDigit(c) || ('a' <= c <= 'f') || ('A' <= c <= 'F')
    else IsDigit(c) && DigitVal(c) < base
  }

  predicate RadixDigits(ds: string, base: nat) {
    forall i :: 0 <= i < |ds| ==> IsRadixDigit(ds[i], base)
  }

  function RadixDigitVal(c: char): nat {
    if IsDigit(c) then DigitVal(c)
    else if 'a' <= c <= 'f' then (c as int) - ('a' as int) + 10
    else if 'A' <= c <= 'F' then (c as int) - ('A' as int) + 10
    else 0
  }

  function RadixValue(ds: string, base: nat): nat {
    if ds == [] then 0
    else RadixValue(ds[..|ds| - 1], base) * base + RadixDigitVal(ds[|ds| - 1])
  }

  /** The base announced by a `0x`, `0o` or `0b` prefix, or 0. */
  function RadixOf(t: string): nat {
    if |t| < 2 || t[0] != '0' then 0
    else if t[1] == 'x' || t[1] == 'X' then 16
    else if t[1] == 'o' || t[1] == 'O' then 8
    else if t[1] == 'b' || t[1] == 'B' then 2
    else 0
  }

  /** `Number(s)`: surrounding white space is ignored, the empty string is
      0, an unsigned `0x`/`0o`/`0b` literal or a signed decimal literal is
      its value, anything else is `NaN` (here `None`). */
  function JsNumber(s: string): (r: Option<real>)
    ensures Trim(s) == [] ==> r == Some(0.0)
  {
    var t := Trim(s);
    if t == [] then Some(0.0)
    else if RadixOf(t) != 0 then
      var ds := t[2..];
      if ds != [] && RadixDigits(ds, RadixOf(t))
      then Some(RadixValue(ds, RadixOf(t)) as real)
      else None
    else if t[0] == '+' then UnsignedDecimal(t[1..])
    else if t[0] == '-' then Negate(UnsignedDecimal(t[1..]))
    else UnsignedDecimal(t)
  }

  /** A token that, once trimmed, starts with anything but a digit, a sign
      or a dot is `NaN` for `Number`; the empty string is 0. */
  lemma JsNumberOfWord(s: string)
    requires var t := Trim(s); t == [] || (!IsDigit(t[0]) && t[0] != '+' && t[0] != '-' && t[0] != '.')
    ensures Trim(s) == [] ==> JsNumber(s) == Some(0.0)
    ensures Trim(s) != [] ==> JsNumber(s) == None
  {
    var t := Trim(s);
    if t != [] {
      assert RadixOf(t) == 0;
      assert DigitRun(t) == 0;
      assert MantissaPrefix(t).0 == 0;
    }
  }

  /** The longest exponent part at the head of `s`, as `(length, value)`;
      `(0, 0)` when there is none. */
  function ExponentPrefix(s: string): (r: (nat, int))
    ensures r.0 <= |s|
  {
    if s == [] || (s[0] != 'e' && s[0] != 'E') then (0, 0)
    else
      var t := s[1..];
      var signed := t != [] && (t[0] == '+' || t[0] == '-');
      var u := if signed then t[1..] else t;
      var n := DigitRun(u);
      if n == 0 then (0, 0)
      else
        var v := DigitsValue(u[..n]) as int;
        (1 + (if signed then 1 else 0) + n, if signed && t[0] == '-' then -v else v)
  }

  /** The value of the longest unsigned decimal literal at the head of
      `u`, or `None` when `u` does not start with one. */
  function FloatPrefix(u: string): Option<real>
  {
    var m := MantissaPrefix(u);
    if m.0 == 0 then None
    else Some(WithExponent(m.1, ExponentPrefix(u[m.0..]).1))
  }

  function Negate(v: Option<real>): (r: Option<real>)
    ensures r.Some? <==> v.Some?
    ensures v.Some? ==> r.value == -v.value
  {
    match v
    case None => None
    case Some(x) => Some(-x)
  }

  /** `parseFloat(s)`: after leading white space and an optional sign, the
      value of the longest prefix that is a decimal literal, or `NaN` (here
      `None`) when there is no such prefix. */
  function ParseFloat(s: string): Option<real>
  {
    var t := SkipSpaces(s);
    if t != [] && t[0] == '-' then Negate(FloatPrefix(t[1..]))
    else if t != [] && t[0] == '+' then FloatPrefix(t[1..])
    else FloatPrefix(t)
  }

  /** Unlike `Number`, `parseFloat` reads the empty string as `NaN`, and
      so it does any string whose first non-space character is not a digit,
      a sign or a dot. */
  lemma ParseFloatOfWord(s: string)
    requires var t := SkipSpaces(s); t == [] || (!IsDigit(t[0]) && t[0] != '+' && t[0] != '-' && t[0] != '.')
    ensures ParseFloat(s) == None
  {
    var t := SkipSpaces(s);
    assert DigitRun(t) == 0;
    assert MantissaPrefix(t).0 == 0;
  }

  // ---------------------------------------------------------------------
  // Printing integers
  // ---------------------------------------------------------------------

  /** Decimal digits of `n`, without leading zeros. */
  function ShowNat(n: nat): (s: string)
    ensures s != [] && AllDigits(s)
    ensures |s| >= 2 ==> s[0] != '0'
  {
    if n < 10 then [DigitChar(n)]
    else ShowNat(n / 10) + [DigitChar(n % 10)]
  }

  /** JavaScript's rendering of an integer-valued number. */
  function ShowInt(i: int): (s: string)
    ensures s != [] && SeparatorFree(s)
    ensures forall k :: 0 <= k < |s| ==> IsDigit(s[k]) || s[k] == '-'
  {
    if i < 0 then "-" + ShowNat(-i) else ShowNat(i)
  }

  /** Rendering of a number that is known to be an integer. */
  function ShowIntegral(r: real): string {
    ShowInt(r.Floor)
  }

  /** The renderings of the few integers the model mentions literally. */
  lemma ShowIntSmall()
    ensures ShowInt(0) == "0" && ShowInt(1) == "1" && ShowInt(2) == "2"
    ensures ShowInt(10) == "10" && ShowInt(20) == "20"
    ensures ShowInt(100) == "100" && ShowInt(200) == "200"
  {
    assert DigitChar(0) == '0' && DigitChar(1) == '1' && DigitChar(2) == '2';
    assert ShowNat(10) == ShowNat(1) + [DigitChar(0)];
    assert ShowNat(20) == ShowNat(2) + [DigitChar(0)];
    assert ShowNat(100) == ShowNat(10) + [DigitChar(0)];
    assert ShowNat(200) == ShowNat(20) + [DigitChar(0)];
  }

  lemma {:induction false} DigitsValueShowNat(n: nat)
    ensures DigitsValue(ShowNat(n)) == n
  {
    if n >= 10 {
      DigitsValueShowNat(n / 10);
      var s := ShowNat(n);
      assert s[..|s| - 1] == ShowNat(n / 10);
    }
  }

  lemma MantissaOfDigits(s: string)
    requires s != [] && AllDigits(s)
    ensures MantissaPrefix(s) == (|s|, DigitsValue(s) as real)
  {
    assert DigitRun(s) == |s|;
    assert s[..|s|] == s;
  }

  lemma UnsignedDecimalOfDigits(s: string)
    requires s != [] && AllDigits(s)
    ensures UnsignedDecimal(s) == Some(DigitsValue(s) as real)
  {
    MantissaOfDigits(s);
    assert s[|s|..] == [];
  }

  /** `Number` reads back what `ShowInt` prints. */
  lemma JsNumberShowInt(i: int)
    ensures JsNumber(ShowInt(i)) == Some(i as real)
  {
    if i < 0 {
      JsNumberShowNegative(i);
    } else {
      JsNumberShowNat(i);
    }
  }

  lemma JsNumberShowNegative(i: int)
    requires i < 0
    ensures JsNumber(ShowInt(i)) == Some(i as real)
  {
    var m: nat := -i;
    var d := ShowNat(m);
    assert ShowInt(i) == "-" + d;
    TrimNegDigits(d);
    JsNumberMinus(d);
    UnsignedDecimalOfDigits(d);
    DigitsValueShowNat(m);
  }

  lemma JsNumberShowNat(n: nat)
    ensures JsNumber(ShowInt(n)) == Some(n as real)
  {
    DigitsValueShowNat(n);
    JsNumberOfDigits(ShowNat(n));
    assert ShowInt(n) == ShowNat(n);
  }

  lemma JsNumberOfDigits(s: string)
    requires s != [] && AllDigits(s) && (|s| >= 2 ==> s[0] != '0')
    ensures JsNumber(s) == Some(DigitsValue(s) as real)
  {
    assert IsDigit(s[0]) && IsDigit(s[|s| - 1]);
    TrimKeeps(s);
    assert RadixOf(s) == 0;
    JsNumberUnsigned(s);
    UnsignedDecimalOfDigits(s);
  }

  /** A trimmed string with no radix prefix and no sign is read as an
      unsigned decimal literal. */
  lemma JsNumberUnsigned(t: string)
    requires t != [] && Trim(t) == t && RadixOf(t) == 0 && t[0] != '+' && t[0] != '-'
    ensures JsNumber(t) == UnsignedDecimal(t)
  {
  }

  lemma DropSign(u: string)
    ensures ("-" + u)[1..] == u
  {
  }

  lemma TrimNegDigits(s: string)
    requires s != [] && AllDigits(s)
    ensures Trim("-" + s) == "-" + s
  {
    var m := "-" + s;
    assert m[0] == '-' && m[|m| - 1] == s[|s| - 1] && IsDigit(s[|s| - 1]);
    TrimKeeps(m);
  }

  lemma JsNumberMinus(u: string)
    requires Trim("-" + u) == "-" + u
    ensures JsNumber("-" + u) == Negate(UnsignedDecimal(u))
  {
    DropSign(u);
  }

  lemma FloatPrefixOfDigits(s: string)
    requires s != [] && AllDigits(s)
    ensures FloatPrefix(s) == Some(DigitsValue(s) as real)
  {
    MantissaOfDigits(s);
    assert s[|s|..] == [];
  }

  lemma ParseFloatOfDigits(s: string)
    requires s != [] && AllDigits(s)
    ensures ParseFloat(s) == Some(DigitsValue(s) as real)
  {
    assert IsDigit(s[0]);
    assert SkipSpaces(s) == s;
    FloatPrefixOfDigits(s);
  }

  lemma ParseFloatMinus(u: string)
    ensures ParseFloat("-" + u) == Negate(FloatPrefix(u))
  {
    var m := "-" + u;
    assert m[0] == '-' && !IsSpace(m[0]);
    assert SkipSpaces(m) == m;
    assert m[1..] == u;
  }

  lemma ParseFloatOfNegated(u: string, v: real)
    requires FloatPrefix(u) == Some(v)
    ensures ParseFloat("-" + u) == Some(-v)
  {
    ParseFloatMinus(u);
  }

  /** `parseFloat` reads back what `ShowInt` prints. */
  lemma ParseFloatShowInt(i: int)
    ensures ParseFloat(ShowInt(i)) == Some(i as real)
  {
    if i < 0 {
      ParseFloatShowNegative(i);
    } else {
      ParseFloatShowNat(i);
    }
  }

  lemma ParseFloatShowNegative(i: int)
    requires i < 0
    ensures ParseFloat(ShowInt(i)) == Some(i as real)
  {
    var d := ShowNat(-i);
    DigitsValueShowNat(-i);
    assert DigitsValue(d) as real == (-i) as real;
    FloatPrefixOfDigits(d);
    ParseFloatOfNegated(d, (-i) as real);
    assert ShowInt(i) == "-" + d;
  }

  lemma ParseFloatShowNat(n: nat)
    ensures ParseFloat(ShowInt(n)) == Some(n as real)
  {
    DigitsValueShowNat(n);
    ParseFloatOfDigits(ShowNat(n));
    assert ShowInt(n) == ShowNat(n);
  }
}
