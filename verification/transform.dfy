/** The `transform` attribute helpers of `svgUtils`: `parseTransform` reads
    translate, scale and rotate out of an attribute string with three
    regular expressions, and `formatTransform` writes a (partial) transform
    back. Each regular expression is modelled by a function that returns
    exactly the capture groups JavaScript's backtracking matcher returns
    for the leftmost match. */
module SvgTransform {
  import opened Wrappers
  import opened Text

  /** `parseFloat`'s result: no number prefix means `NaN`. */
  function Num(v: Option<real>): (n: Number)
    ensures n.NaN? <==> v.None?
    ensures v.Some? ==> n == Finite(v.value)
  {
    if v.Some? then Finite(v.value) else NaN
  }

  datatype Transform = Transform(translateX: Number, translateY: Number, scaleX: Number, scaleY: Number, rotate: Number)

  /** The transform `parseTransform` starts from. */
  const Identity: Transform := Transform(Finite(0.0), Finite(0.0), Finite(1.0), Finite(1.0), Finite(0.0))

  /** A transform whose fields may be undefined, as `formatTransform`
      accepts it. */
  datatype PartialTransform = PartialTransform(
    translateX: Option<Number>, translateY: Option<Number>,
    scaleX: Option<Number>, scaleY: Option<Number>,
    rotate: Option<Number>)

  function Full(t: Transform): PartialTransform {
    PartialTransform(Some(t.translateX), Some(t.translateY), Some(t.scaleX), Some(t.scaleY), Some(t.rotate))
  }

  // ---------------------------------------------------------------------
  // Regular-expression building blocks
  // ---------------------------------------------------------------------

  /** The character class `[-\d.]`. */
  predicate IsNumChar(c: char) {
    c == '-' || c == '.' || IsDigit(c)
  }

  /** A string `[-\d.]+` matches in full. */
  predicate NumericToken(s: string) {
    s != [] && forall i :: 0 <= i < |s| ==> IsNumChar(s[i])
  }

  /** Length of the longest prefix of `[-\d.]` characters: what a greedy
      `[-\d.]+` takes. */
  function NumRun(s: string): (n: nat)
    ensures n <= |s|
    ensures forall i :: 0 <= i < n ==> IsNumChar(s[i])
    ensures n < |s| ==> !IsNumChar(s[n])
  {
    if s != [] && IsNumChar(s[0]) then 1 + NumRun(s[1..]) else 0
  }

  /** `\s*\)` matches at the start of `t`. */
  predicate ClosesAfterSpaces(t: string) {
    var u := SkipSpaces(t);
    u != [] && u[0] == ')'
  }

  /** The tail `\s*,?\s*([-\d.]+)\s*\)` after a greedy first group; yields
      the second group. */
  function OptionalCommaSecond(t: string): Option<string> {
    var u := SkipSpaces(t);
    RunThenCloses(if u != [] && u[0] == ',' then SkipSpaces(u[1..]) else u)
  }

  /** `([-\d.]+)\s*\)` at the start of `v`; yields the group. */
  function RunThenCloses(v: string): Option<string> {
    var n := NumRun(v);
    if n > 0 && ClosesAfterSpaces(v[n..]) then Some(v[..n]) else None
  }

  /** The tail `\s*,\s*([-\d.]+)\s*\)`, where the comma is required;
      yields the second group. */
  function CommaSecond(t: string): Option<string> {
    var u := SkipSpaces(t);
    if u != [] && u[0] == ',' then RunThenCloses(SkipSpaces(u[1..])) else None
  }

  /** The pattern `kw` followed by `at` matches `s` at position `i`. */
  predicate MatchesAt<X>(s: string, kw: string, at: string -> Option<X>, i: int) {
    0 <= i <= |s| && kw <= s[i..] && at(s[i + |kw|..]).Some?
  }

  /** Leftmost match: the first position where `kw` starts and the rest
      of the pattern, `at`, matches after it. */
  function Search<X>(s: string, kw: string, at: string -> Option<X>): Option<X>
    decreases |s|
  {
    if kw <= s && at(s[|kw|..]).Some? then at(s[|kw|..])
    else if s == [] then None
    else Search(s[1..], kw, at)
  }

  // ---------------------------------------------------------------------
  // The three patterns
  // ---------------------------------------------------------------------

  /** `\s*([-\d.]+)\s*,?\s*([-\d.]+)\s*\)` after `translate(`. The first
      group is greedy; when no second run follows, the matcher gives the
      last character of the first run to the second group. */
  function TranslateArgs(s: string): Option<(string, string)> {
    var a := SkipSpaces(s);
    TranslateAfterRun(a, NumRun(a))
  }

  /** The rest of the translate pattern once the greedy first group has
      taken the first `n` characters of `a`. */
  function TranslateAfterRun(a: string, n: nat): Option<(string, string)>
    requires n <= |a|
  {
    if n == 0 then None
    else match OptionalCommaSecond(a[n..])
      case Some(g2) => Some((a[..n], g2))
      case None =>
        if n >= 2 && ClosesAfterSpaces(a[n..]) then Some((a[..n - 1], a[n - 1..n])) else None
  }

  /** `\s*([-\d.]+)\s*(?:,\s*([-\d.]+))?\s*\)` after `scale(`: a second
      argument is only recognised after a comma. */
  function ScaleArgs(s: string): Option<(string, Option<string>)> {
    var a := SkipSpaces(s);
    var n := NumRun(a);
    if n == 0 then None
    else match CommaSecond(a[n..])
      case Some(g2) => Some((a[..n], Some(g2)))
      case None => if ClosesAfterSpaces(a[n..]) then Some((a[..n], None)) else None
  }

  /** After the first run: `\s*` and one more run, then `\s*\)`. */
  predicate OneRunCloses(t: string) {
    var u := SkipSpaces(t);
    var m := NumRun(u);
    m > 0 && ClosesAfterSpaces(u[m..])
  }

  /** After the first run: two more runs, each after optional spaces, then
      `\s*\)`. */
  predicate TwoRunsClose(t: string) {
    var u := SkipSpaces(t);
    var m := NumRun(u);
    var w := SkipSpaces(u[m..]);
    var k := NumRun(w);
    m > 0 && k > 0 && ClosesAfterSpaces(w[k..])
  }

  function SecondRunLength(t: string): nat {
    NumRun(SkipSpaces(t))
  }

  /** `\s*([-\d.]+)(?:\s*([-\d.]+)\s*([-\d.]+))?\s*\)` after `rotate(`;
      only the first group is used. With the greedy first group the
      optional part can match two more runs, or split one further run of at
      least two characters; with exactly one one-character run after it,
      the first group gives up its last character. */
  function RotateArg(s: string): Option<string> {
    var a := SkipSpaces(s);
    RotateAfterRun(a, NumRun(a))
  }

  /** The rest of the rotate pattern once the greedy first group has taken
      the first `n` characters of `a`. */
  function RotateAfterRun(a: string, n: nat): Option<string>
    requires n <= |a|
  {
    if n == 0 then None
    else
      var t := a[n..];
      if ClosesAfterSpaces(t) || TwoRunsClose(t) || (OneRunCloses(t) && SecondRunLength(t) >= 2) then Some(a[..n])
      else if OneRunCloses(t) && n >= 2 then Some(a[..n - 1])
      else None
  }

  const TranslateKw: string := "translate("
  const ScaleKw: string := "scale("
  const RotateKw: string := "rotate("

  /** `parseTransform`. */
  function ParseTransform(str: Option<string>): (t: Transform)
    ensures str.None? || str == Some("") ==> t == Identity
  {
    if str.None? || str.value == "" then Identity
    else
      var s := str.value;
      var tr := Search(s, TranslateKw, TranslateArgs);
      var sc := Search(s, ScaleKw, ScaleArgs);
      var ro := Search(s, RotateKw, RotateArg);
      Transform(
        if tr.Some? then Num(ParseFloat(tr.value.0)) else Finite(0.0),
        if tr.Some? then Num(ParseFloat(tr.value.1)) else Finite(0.0),
        if sc.Some? then Num(ParseFloat(sc.value.0)) else Finite(1.0),
        if sc.Some? then (if sc.value.1.Some? then Num(ParseFloat(sc.value.1.value)) else Num(ParseFloat(sc.value.0))) else Finite(1.0),
        if ro.Some? then Num(ParseFloat(ro.value)) else Finite(0.0))
  }

  // ---------------------------------------------------------------------
  // The parse as evidently intended
  // ---------------------------------------------------------------------

  /** `translate(tx [,] ty)` or `translate(tx)`, the latter meaning
      `ty = 0` as in the SVG transform syntax. */
  function TranslateArgsFixed(s: string): Option<(string, Option<string>)> {
    var a := SkipSpaces(s);
    var n := NumRun(a);
    if n == 0 then None
    else match OptionalCommaSecond(a[n..])
      case Some(g2) => Some((a[..n], Some(g2)))
      case None => if ClosesAfterSpaces(a[n..]) then Some((a[..n], None)) else None
  }

  /** `scale(sx [,] sy)` or `scale(s)`: the two arguments may be separated
      by white space, as `formatTransform` writes them. */
  function ScaleArgsFixed(s: string): Option<(string, Option<string>)> {
    TranslateArgsFixed(s)
  }

  /** `parseTransform` with the two argument patterns corrected. */
  function ParseTransformFixed(str: Option<string>): (t: Transform)
    ensures str.None? || str == Some("") ==> t == Identity
    ensures t.rotate == ParseTransform(str).rotate
  {
    if str.None? || str.value == "" then Identity
    else
      var s := str.value;
      var tr := Search(s, TranslateKw, TranslateArgsFixed);
      var sc := Search(s, ScaleKw, ScaleArgsFixed);
      var ro := Search(s, RotateKw, RotateArg);
      Transform(
        if tr.Some? then Num(ParseFloat(tr.value.0)) else Finite(0.0),
        if tr.Some? then (if tr.value.1.Some? then Num(ParseFloat(tr.value.1.value)) else Finite(0.0)) else Finite(0.0),
        if sc.Some? then Num(ParseFloat(sc.value.0)) else Finite(1.0),
        if sc.Some? then (if sc.value.1.Some? then Num(ParseFloat(sc.value.1.value)) else Num(ParseFloat(sc.value.0))) else Finite(1.0),
        if ro.Some? then Num(ParseFloat(ro.value)) else Finite(0.0))
  }

  // ---------------------------------------------------------------------
  // Formatting
  // ---------------------------------------------------------------------

  /** A template-literal rendering of a number: `NaN` prints as "NaN". */
  function ShowNumber(n: Number, show: real -> string): string {
    match n
    case NaN => "NaN"
    case Finite(x) => show(x)
  }

  /** `${v || 0}`: undefined, `NaN` and 0 all print as "0". */
  function ShowOrZero(v: Option<Number>, show: real -> string): string {
    if v.Some? && v.value.Finite? && v.value.value != 0.0 then show(v.value.value) else "0"
  }

  predicate HasTranslate(pt: PartialTransform) {
    pt.translateX.Some? || pt.translateY.Some?
  }

  predicate HasScale(pt: PartialTransform) {
    pt.scaleX.Some? || pt.scaleY.Some?
  }

  predicate HasRotate(pt: PartialTransform) {
    pt.rotate.Some?
  }

  /** `translate(X Y)`, a missing component written as 0. */
  function TranslateText(pt: PartialTransform, show: real -> string): string {
    TranslateKw + ShowOrZero(pt.translateX, show) + " " + ShowOrZero(pt.translateY, show) + ")"
  }

  /** `scale(SX SY)`: a missing x factor is 1 and a missing y factor is the
      x factor. */
  function ScaleText(pt: PartialTransform, show: real -> string): string {
    var sx := pt.scaleX.GetOr(Finite(1.0));
    var sy := pt.scaleY.GetOr(sx);
    ScaleKw + ShowNumber(sx, show) + " " + ShowNumber(sy, show) + ")"
  }

  function RotateText(pt: PartialTransform, show: real -> string): string {
    RotateKw + ShowOrZero(pt.rotate, show) + ")"
  }

  function TranslatePart(pt: PartialTransform, show: real -> string): string {
    if HasTranslate(pt) then TranslateText(pt, show) + " " else ""
  }

  function ScalePart(pt: PartialTransform, show: real -> string): string {
    if HasScale(pt) then ScaleText(pt, show) + " " else ""
  }

  function RotatePart(pt: PartialTransform, show: real -> string): string {
    if HasRotate(pt) then RotateText(pt, show) + " " else ""
  }

  /** The parts of a formatted transform in order: translate, scale,
      rotate, each present exactly when one of its fields is defined. */
  function Layout(pt: PartialTransform, show: real -> string): seq<string> {
    (if HasTranslate(pt) then [TranslateText(pt, show)] else [])
    + (if HasScale(pt) then [ScaleText(pt, show)] else [])
    + (if HasRotate(pt) then [RotateText(pt, show)] else [])
  }

  /** `formatTransform`: the parts of `Layout` separated by single
      spaces. */
  function FormatTransform(pt: PartialTransform, show: real -> string): (r: string)
    ensures r == Join(Layout(pt, show), " ")
    ensures pt == PartialTransform(None, None, None, None, None) ==> r == ""
    ensures r == [] || (!IsSpace(r[0]) && !IsSpace(r[|r| - 1]))
  {
    FormatIsJoin(pt, show);
    Trim(TranslatePart(pt, show) + ScalePart(pt, show) + RotatePart(pt, show))
  }

  /** Each part followed by one space. */
  function Spaced(ps: seq<string>): string {
    if ps == [] then "" else ps[0] + " " + Spaced(ps[1..])
  }

  lemma {:induction false} SpacedConcat(a: seq<string>, b: seq<string>)
    ensures Spaced(a + b) == Spaced(a) + Spaced(b)
    decreases |a|
  {
    if a == [] {
      assert a + b == b;
    } else {
      assert (a + b)[1..] == a[1..] + b;
      SpacedConcat(a[1..], b);
      ConcatAssoc(a[0] + " ", Spaced(a[1..]), Spaced(b));
    }
  }

  lemma {:induction false} SpacedJoin(ps: seq<string>)
    requires |ps| >= 1
    ensures Spaced(ps) == Join(ps, " ") + " "
    decreases |ps|
  {
    if |ps| == 1 {
      assert ps[1..] == [];
    } else {
      SpacedJoin(ps[1..]);
      ConcatAssoc(ps[0] + " ", Join(ps[1..], " "), " ");
    }
  }

  lemma TrimTrailingSpace(u: string)
    requires u != [] && !IsSpace(u[0]) && !IsSpace(u[|u| - 1])
    ensures Trim(u + " ") == u
  {
    var w := u + " ";
    assert w[0] == u[0];
    assert SkipSpaces(w) == w;
    assert w[..|w| - 1] == u;
    assert TrimEnd(w) == TrimEnd(u);
  }

  /** Every part starts with a keyword letter and ends with `)`. */
  lemma LayoutEnds(pt: PartialTransform, show: real -> string)
    ensures var ps := Layout(pt, show);
            forall i :: 0 <= i < |ps| ==> ps[i] != [] && !IsSpace(ps[i][0]) && ps[i][|ps[i]| - 1] == ')'
  {
  }

  /** What the three appends build is the spaced layout; trimming drops
      the last space. */
  lemma FormatIsJoin(pt: PartialTransform, show: real -> string)
    ensures Trim(TranslatePart(pt, show) + ScalePart(pt, show) + RotatePart(pt, show)) == Join(Layout(pt, show), " ")
  {
    PartsAreSpaced(pt, show);
    LayoutEnds(pt, show);
    TrimSpacedJoin(Layout(pt, show));
  }

  lemma PartsAreSpaced(pt: PartialTransform, show: real -> string)
    ensures TranslatePart(pt, show) + ScalePart(pt, show) + RotatePart(pt, show) == Spaced(Layout(pt, show))
  {
    var t := if HasTranslate(pt) then [TranslateText(pt, show)] else [];
    var c := if HasScale(pt) then [ScaleText(pt, show)] else [];
    var o := if HasRotate(pt) then [RotateText(pt, show)] else [];
    assert Spaced(t) == TranslatePart(pt, show);
    assert Spaced(c) == ScalePart(pt, show);
    assert Spaced(o) == RotatePart(pt, show);
    SpacedConcat(t, c);
    SpacedConcat(t + c, o);
    assert Layout(pt, show) == t + c + o;
  }

  /** Parts that start with a non-space and end with `)`, each followed by
      a space, trim to the parts joined by single spaces. */
  lemma TrimSpacedJoin(ps: seq<string>)
    requires forall i :: 0 <= i < |ps| ==> ps[i] != [] && !IsSpace(ps[i][0]) && ps[i][|ps[i]| - 1] == ')'
    ensures Trim(Spaced(ps)) == Join(ps, " ")
  {
    if ps != [] {
      SpacedJoin(ps);
      JoinEnds(ps, " ");
      TrimTrailingSpace(Join(ps, " "));
    }
  }
}

/** Proofs about the transform helpers: the shape of what `formatTransform`
    writes, what each pattern extracts from it, and the round trips. */
module SvgTransformProofs {
  import opened Wrappers
  import opened Text
  import opened SvgTransform

  // ---------------------------------------------------------------------
  // Tokens
  // ---------------------------------------------------------------------

  /** `Search` finds nothing exactly when the pattern matches nowhere,
      and otherwise returns what the rest of the pattern captures at the
      leftmost position where it matches. */
  lemma {:induction false} SearchLeftmost<X>(s: string, kw: string, at: string -> Option<X>)
    ensures Search(s, kw, at).None? <==> forall i :: 0 <= i <= |s| ==> !MatchesAt(s, kw, at, i)
    ensures Search(s, kw, at).Some? ==>
              exists i :: && MatchesAt(s, kw, at, i)
                          && Search(s, kw, at) == at(s[i + |kw|..])
                          && forall j :: 0 <= j < i ==> !MatchesAt(s, kw, at, j)
    decreases |s|
  {
    assert s[0..] == s;
    if MatchesAt(s, kw, at, 0) {
      assert Search(s, kw, at) == at(s[|kw|..]);
    } else if s == [] {
      forall i | 0 <= i <= |s| ensures !MatchesAt(s, kw, at, i) {
        assert i == 0;
      }
    } else {
      SearchLeftmost(s[1..], kw, at);
      assert Search(s, kw, at) == Search(s[1..], kw, at);
      forall i | 0 <= i < |s|
        ensures MatchesAt(s, kw, at, i + 1) <==> MatchesAt(s[1..], kw, at, i)
      {
        ShiftMatch(s, kw, at, i);
      }
      if Search(s, kw, at).Some? {
        var i :| && MatchesAt(s[1..], kw, at, i)
                 && Search(s[1..], kw, at) == at(s[1..][i + |kw|..])
                 && forall j :: 0 <= j < i ==> !MatchesAt(s[1..], kw, at, j);
        assert s[1..][i + |kw|..] == s[i + 1 + |kw|..];
        assert MatchesAt(s, kw, at, i + 1);
        assert forall j :: 0 <= j < i + 1 ==> !MatchesAt(s, kw, at, j) by {
          forall j | 0 < j < i + 1 ensures !MatchesAt(s, kw, at, j) {
            assert !MatchesAt(s[1..], kw, at, j - 1);
          }
        }
      } else {
        forall i | 0 <= i <= |s| ensures !MatchesAt(s, kw, at, i) {
          if i > 0 {
            assert !MatchesAt(s[1..], kw, at, i - 1);
          }
        }
      }
    }
  }

  lemma ShiftMatch<X>(s: string, kw: string, at: string -> Option<X>, i: nat)
    requires i < |s|
    ensures MatchesAt(s, kw, at, i + 1) <==> MatchesAt(s[1..], kw, at, i)
  {
    assert s[1..][i..] == s[i + 1..];
    if kw <= s[i + 1..] {
      assert s[1..][i + |kw|..] == s[i + 1 + |kw|..];
    }
  }

  /** A non-empty prefix of a run is a `[-\d.]+` token. */
  lemma RunPrefix(a: string, n: nat)
    requires 0 < n <= |a| && forall i :: 0 <= i < n ==> IsNumChar(a[i])
    ensures NumericToken(a[..n])
  {
    var p := a[..n];
    forall k | 0 <= k < |p| ensures IsNumChar(p[k]) {
      assert p[k] == a[k];
    }
  }

  /** A run and the run less its last character are `[-\d.]+` tokens, and
      so is that last character. */
  lemma RunPieces(a: string, n: nat)
    requires 0 < n <= |a| && forall i :: 0 <= i < n ==> IsNumChar(a[i])
    ensures NumericToken(a[..n])
    ensures n >= 2 ==> NumericToken(a[..n - 1]) && NumericToken(a[n - 1..n])
  {
    RunPrefix(a, n);
    if n >= 2 {
      RunPrefix(a, n - 1);
      assert a[n - 1..n] == [a[n - 1]];
    }
  }

  lemma RunThenClosesNumeric(v: string)
    ensures RunThenCloses(v).Some? ==> NumericToken(RunThenCloses(v).value)
  {
    var n := NumRun(v);
    if n > 0 {
      RunPieces(v, n);
    }
  }

  lemma SecondGroupNumeric(t: string)
    ensures OptionalCommaSecond(t).Some? ==> NumericToken(OptionalCommaSecond(t).value)
    ensures CommaSecond(t).Some? ==> NumericToken(CommaSecond(t).value)
  {
    var u := SkipSpaces(t);
    RunThenClosesNumeric(u);
    if u != [] && u[0] == ',' {
      RunThenClosesNumeric(SkipSpaces(u[1..]));
    }
  }

  /** Both groups of the translate pattern are `[-\d.]+` runs. */
  lemma TranslateGroupsNumeric(s: string)
    ensures TranslateArgs(s).Some? ==> NumericToken(TranslateArgs(s).value.0) && NumericToken(TranslateArgs(s).value.1)
  {
    var a := SkipSpaces(s);
    TranslateAfterRunNumeric(a, NumRun(a));
  }

  lemma TranslateAfterRunNumeric(a: string, n: nat)
    requires n <= |a| && forall i :: 0 <= i < n ==> IsNumChar(a[i])
    ensures var r := TranslateAfterRun(a, n); r.Some? ==> NumericToken(r.value.0) && NumericToken(r.value.1)
  {
    if n > 0 {
      SecondGroupNumeric(a[n..]);
      RunPieces(a, n);
    }
  }

  /** The groups of the scale pattern are `[-\d.]+` runs. */
  lemma ScaleGroupsNumeric(s: string)
    ensures ScaleArgs(s).Some? ==> NumericToken(ScaleArgs(s).value.0)
    ensures ScaleArgs(s).Some? && ScaleArgs(s).value.1.Some? ==> NumericToken(ScaleArgs(s).value.1.value)
  {
    var a := SkipSpaces(s);
    var n := NumRun(a);
    if n > 0 {
      SecondGroupNumeric(a[n..]);
      RunPieces(a, n);
    }
  }

  /** The group the rotate pattern keeps is a `[-\d.]+` run. */
  lemma RotateGroupNumeric(s: string)
    ensures RotateArg(s).Some? ==> NumericToken(RotateArg(s).value)
  {
    var a := SkipSpaces(s);
    RotateAfterRunNumeric(a, NumRun(a));
  }

  lemma RotateAfterRunNumeric(a: string, n: nat)
    requires n <= |a| && forall i :: 0 <= i < n ==> IsNumChar(a[i])
    ensures var r := RotateAfterRun(a, n); r.Some? ==> NumericToken(r.value)
  {
    if n > 0 {
      RunPieces(a, n);
    }
  }

  lemma NumCharIsNotPunctuation(c: char)
    requires IsNumChar(c)
    ensures !IsSpace(c) && c != ',' && c != ')' && !('a' <= c <= 'z')
  {
  }

  lemma {:induction false} NumRunOfToken(x: string, rest: string)
    requires NumericToken(x)
    requires rest == [] || !IsNumChar(rest[0])
    ensures NumRun(x + rest) == |x|
    ensures (x + rest)[..|x|] == x && (x + rest)[|x|..] == rest
    decreases |x|
  {
    var s := x + rest;
    assert s[0] == x[0];
    if |x| == 1 {
      assert s[1..] == rest;
    } else {
      assert s[1..] == x[1..] + rest;
      NumRunOfToken(x[1..], rest);
    }
  }

  lemma SkipSpacesAtNonSpace(s: string)
    requires s != [] && !IsSpace(s[0])
    ensures SkipSpaces(s) == s
  {
  }

  lemma SkipOneSpace(s: string)
    requires s != [] && !IsSpace(s[0])
    ensures SkipSpaces(" " + s) == s
  {
    assert (" " + s)[1..] == s;
  }

  lemma ClosesAtParen(rest: string)
    requires rest != [] && rest[0] == ')'
    ensures ClosesAfterSpaces(rest)
  {
  }

  // ---------------------------------------------------------------------
  // Skipping over text that cannot start a keyword
  // ---------------------------------------------------------------------

  /** No position of `p` can start `kw`: its first character differs, or
      the next character of `p` differs from `kw`'s second. */
  predicate NoMatchIn(p: string, kw: string)
    requires |kw| >= 2
  {
    forall i {:trigger p[i]} :: 0 <= i < |p| ==> p[i] != kw[0] || (i + 1 < |p| && p[i + 1] != kw[1])
  }

  predicate Letterless(x: string) {
    forall i :: 0 <= i < |x| ==> !('a' <= x[i] <= 'z')
  }

  lemma LetterlessNoMatch(x: string, kw: string)
    requires |kw| >= 2 && 'a' <= kw[0] <= 'z' && Letterless(x)
    ensures NoMatchIn(x, kw)
  {
  }

  lemma NumericLetterless(x: string)
    requires NumericToken(x)
    ensures Letterless(x)
  {
    forall i | 0 <= i < |x|
      ensures !('a' <= x[i] <= 'z')
    {
      NumCharIsNotPunctuation(x[i]);
    }
  }

  lemma NoMatchConcat(a: string, b: string, kw: string)
    requires |kw| >= 2 && NoMatchIn(a, kw) && NoMatchIn(b, kw)
    ensures NoMatchIn(a + b, kw)
  {
    var s := a + b;
    forall i | 0 <= i < |s|
      ensures s[i] != kw[0] || (i + 1 < |s| && s[i + 1] != kw[1])
    {
      if i < |a| {
        assert a[i] != kw[0] || (i + 1 < |a| && a[i + 1] != kw[1]);
        assert s[i] == a[i];
        if i + 1 < |a| { assert s[i + 1] == a[i + 1]; }
      } else {
        var j := i - |a|;
        assert b[j] != kw[0] || (j + 1 < |b| && b[j + 1] != kw[1]);
        assert s[i] == b[j];
        if j + 1 < |b| { assert s[i + 1] == b[j + 1]; }
      }
    }
  }

  lemma NoMatchAt(p: string, kw: string, i: int)
    requires |kw| >= 2 && NoMatchIn(p, kw) && 0 <= i < |p|
    ensures p[i] != kw[0] || (i + 1 < |p| && p[i + 1] != kw[1])
  {
  }

  /** The search passes over a prefix in which `kw` cannot start. */
  lemma {:induction false} SearchSkip<X>(p: string, rest: string, kw: string, at: string -> Option<X>)
    requires |kw| >= 2 && NoMatchIn(p, kw)
    ensures Search(p + rest, kw, at) == Search(rest, kw, at)
    decreases |p|
  {
    if p != [] {
      var s := p + rest;
      assert s[0] == p[0];
      NoMatchAt(p, kw, 0);
      if 1 < |p| { assert s[1] == p[1]; }
      assert !(kw <= s);
      assert s[1..] == p[1..] + rest;
      var q := p[1..];
      assert NoMatchIn(q, kw) by {
        forall i | 0 <= i < |q|
          ensures q[i] != kw[0] || (i + 1 < |q| && q[i + 1] != kw[1])
        {
          NoMatchAt(p, kw, i + 1);
          assert q[i] == p[i + 1];
          if i + 1 < |q| { assert q[i + 1] == p[i + 2]; }
        }
      }
      SearchSkip(q, rest, kw, at);
      assert Search(s, kw, at) == Search(s[1..], kw, at);
    } else {
      assert p + rest == rest;
    }
  }

  /** At a position where `kw` starts and the rest of the pattern matches,
      the search stops. */
  lemma SearchHit<X>(kw: string, rest: string, at: string -> Option<X>)
    requires kw != [] && at(rest).Some?
    ensures Search(kw + rest, kw, at) == at(rest)
  {
    assert (kw + rest)[|kw|..] == rest;
  }

  /** Where `kw` starts but the rest of the pattern fails, the search moves
      on by one character. */
  lemma SearchMiss<X>(kw: string, rest: string, at: string -> Option<X>)
    requires kw != [] && at(rest).None?
    ensures Search(kw + rest, kw, at) == Search((kw + rest)[1..], kw, at)
  {
    assert (kw + rest)[|kw|..] == rest;
  }

  lemma SearchEmpty<X>(kw: string, at: string -> Option<X>)
    requires kw != []
    ensures Search([], kw, at) == None
  {
  }

  // ---------------------------------------------------------------------
  // What each pattern extracts
  // ---------------------------------------------------------------------

  /** A token at the start is the whole first run. */
  lemma FirstRun(x: string, t: string)
    requires NumericToken(x) && t != [] && !IsNumChar(t[0])
    ensures SkipSpaces(x + t) == x + t
    ensures NumRun(x + t) == |x| && (x + t)[..|x|] == x && (x + t)[|x|..] == t
  {
    NumCharIsNotPunctuation(x[0]);
    assert (x + t)[0] == x[0];
    SkipSpacesAtNonSpace(x + t);
    NumRunOfToken(x, t);
  }

  /** ` y)…` after the first run: the optional comma is absent and the
      second group is `y`. */
  lemma SpacedSecond(y: string, rest: string)
    requires NumericToken(y) && rest != [] && rest[0] == ')'
    ensures OptionalCommaSecond(" " + y + rest) == Some(y)
    ensures CommaSecond(" " + y + rest) == None
    ensures !ClosesAfterSpaces(" " + y + rest)
  {
    NumCharIsNotPunctuation(y[0]);
    assert (y + rest)[0] == y[0];
    assert " " + y + rest == " " + (y + rest);
    SkipOneSpace(y + rest);
    NumRunOfToken(y, rest);
    ClosesAtParen(rest);
  }

  /** `x y)…` after `translate(`: both groups are the two tokens. */
  lemma TranslateArgsOfPair(x: string, y: string, rest: string)
    requires NumericToken(x) && NumericToken(y) && rest != [] && rest[0] == ')'
    ensures TranslateArgs(x + " " + y + rest) == Some((x, y))
    ensures TranslateArgsFixed(x + " " + y + rest) == Some((x, Some(y)))
  {
    var t := " " + y + rest;
    assert x + " " + y + rest == x + t;
    FirstRun(x, t);
    SpacedSecond(y, rest);
  }

  /** `x y)…` after `scale(`: the space-separated second argument is not
      recognised and the pattern fails at this position. */
  lemma ScaleArgsOfSpacedPair(x: string, y: string, rest: string)
    requires NumericToken(x) && NumericToken(y) && rest != [] && rest[0] == ')'
    ensures ScaleArgs(x + " " + y + rest) == None
    ensures ScaleArgsFixed(x + " " + y + rest) == Some((x, Some(y)))
  {
    var t := " " + y + rest;
    assert x + " " + y + rest == x + t;
    FirstRun(x, t);
    SpacedSecond(y, rest);
  }

  /** `r)…` after `rotate(`: the group is the token. */
  lemma RotateArgOfSingle(r: string, rest: string)
    requires NumericToken(r) && rest != [] && rest[0] == ')'
    ensures RotateArg(r + rest) == Some(r)
  {
    NumCharIsNotPunctuation(r[0]);
    SkipSpacesAtNonSpace(r + rest);
    NumRunOfToken(r, rest);
    ClosesAtParen(rest);
  }

  // ---------------------------------------------------------------------
  // The layout of formatted transforms
  // ---------------------------------------------------------------------

  /** `show` prints `x` as a `[-\d.]+` token that `parseFloat` reads back
      as `x`. */
  predicate ExactShow(show: real -> string, x: real) {
    NumericToken(show(x)) && ParseFloat(show(x)) == Some(x)
  }

  /** Every field is a finite number that `show` prints exactly. */
  predicate Printable(t: Transform, show: real -> string) {
    && t.translateX.Finite? && t.translateY.Finite? && t.scaleX.Finite? && t.scaleY.Finite? && t.rotate.Finite?
    && ExactShow(show, t.translateX.value) && ExactShow(show, t.translateY.value)
    && ExactShow(show, t.scaleX.value) && ExactShow(show, t.scaleY.value)
    && ExactShow(show, t.rotate.value)
  }

  lemma ZeroToken()
    ensures NumericToken("0") && ParseFloat("0") == Some(0.0)
  {
    ShowIntSmall();
    ParseFloatShowInt(0);
  }

  /** `${x || 0}` of a printable number is a token that reads back as `x`. */
  lemma ShowOrZeroExact(x: real, show: real -> string)
    requires ExactShow(show, x)
    ensures NumericToken(ShowOrZero(Some(Finite(x)), show))
    ensures ParseFloat(ShowOrZero(Some(Finite(x)), show)) == Some(x)
  {
    ZeroToken();
  }

  /** The three parts of a complete transform. */
  lemma FullParts(t: Transform, show: real -> string)
    ensures TranslatePart(Full(t), show)
              == TranslateKw + ShowOrZero(Some(t.translateX), show) + " " + ShowOrZero(Some(t.translateY), show) + ") "
    ensures ScalePart(Full(t), show) == ScaleKw + ShowNumber(t.scaleX, show) + " " + ShowNumber(t.scaleY, show) + ") "
    ensures RotatePart(Full(t), show) == RotateKw + ShowOrZero(Some(t.rotate), show) + ") "
  {
  }

  lemma ThreePartsTrimmed(x: string, y: string, sx: string, sy: string, r: string)
    ensures var tp := TranslateKw + x + " " + y + ") ";
            var sp := ScaleKw + sx + " " + sy + ") ";
            var rr := RotateKw + r + ")";
            Trim(tp + sp + (RotateKw + r + ") ")) == tp + (sp + rr)
  {
    var tp := TranslateKw + x + " " + y + ") ";
    var sp := ScaleKw + sx + " " + sy + ") ";
    var rr := RotateKw + r + ")";
    var u := tp + (sp + rr);
    assert tp + sp + (RotateKw + r + ") ") == u + " ";
    assert u[0] == 't';
    assert u[|u| - 1] == ')';
    TrimTrailingSpace(u);
  }

  /** A complete transform is written as `translate(X Y) scale(SX SY)
      rotate(R)`, with the number fields in the middle. */
  lemma FormatFullLayout(t: Transform, show: real -> string)
    requires t.scaleX.Finite? && t.scaleY.Finite?
    ensures var x := ShowOrZero(Some(t.translateX), show);
            var y := ShowOrZero(Some(t.translateY), show);
            var sx := show(t.scaleX.value);
            var sy := show(t.scaleY.value);
            var r := ShowOrZero(Some(t.rotate), show);
            FormatTransform(Full(t), show)
              == TranslateKw + x + " " + y + ") " + (ScaleKw + sx + " " + sy + ") " + (RotateKw + r + ")"))
  {
    FullParts(t, show);
    ThreePartsTrimmed(ShowOrZero(Some(t.translateX), show), ShowOrZero(Some(t.translateY), show),
      show(t.scaleX.value), show(t.scaleY.value), ShowOrZero(Some(t.rotate), show));
  }

  // ---------------------------------------------------------------------
  // Pieces the searches pass over
  // ---------------------------------------------------------------------

  /** `<kw0>a b) ` contains no start of `kw` when `kw0` does not and the
      arguments are number tokens. */
  lemma PairPartNoMatch(kw0: string, a: string, b: string, kw: string)
    requires |kw| >= 2 && 'a' <= kw[0] <= 'z' && NoMatchIn(kw0, kw)
    requires NumericToken(a) && NumericToken(b)
    ensures NoMatchIn(kw0 + a + " " + b + ") ", kw)
  {
    NumericLetterless(a);
    NumericLetterless(b);
    LetterlessNoMatch(a, kw);
    LetterlessNoMatch(b, kw);
    LetterlessNoMatch(" ", kw);
    LetterlessNoMatch(") ", kw);
    NoMatchConcat(kw0, a, kw);
    NoMatchConcat(kw0 + a, " ", kw);
    NoMatchConcat(kw0 + a + " ", b, kw);
    NoMatchConcat(kw0 + a + " " + b, ") ", kw);
  }

  /** `<kw0>a)` contains no start of `kw` under the same conditions. */
  lemma SinglePartNoMatch(kw0: string, a: string, kw: string)
    requires |kw| >= 2 && 'a' <= kw[0] <= 'z' && NoMatchIn(kw0, kw)
    requires NumericToken(a)
    ensures NoMatchIn(kw0 + a + ")", kw)
  {
    NumericLetterless(a);
    LetterlessNoMatch(a, kw);
    LetterlessNoMatch(")", kw);
    NoMatchConcat(kw0, a, kw);
    NoMatchConcat(kw0 + a, ")", kw);
  }

  lemma KeywordsDisjoint()
    ensures NoMatchIn(TranslateKw, ScaleKw) && NoMatchIn(RotateKw, ScaleKw)
    ensures NoMatchIn(TranslateKw, RotateKw) && NoMatchIn(ScaleKw, RotateKw)
    ensures NoMatchIn(ScaleKw, TranslateKw) && NoMatchIn(RotateKw, TranslateKw)
    ensures NoMatchIn(ScaleKw[1..], ScaleKw)
  {
  }

  // ---------------------------------------------------------------------
  // What the three searches find in a formatted transform
  // ---------------------------------------------------------------------

  /** The text `formatTransform` writes for a complete transform, given the
      five printed numbers. */
  function Formatted(x: string, y: string, sx: string, sy: string, r: string): string {
    TranslateKw + x + " " + y + ") " + (ScaleKw + sx + " " + sy + ") " + (RotateKw + r + ")"))
  }

  predicate FiveTokens(x: string, y: string, sx: string, sy: string, r: string) {
    NumericToken(x) && NumericToken(y) && NumericToken(sx) && NumericToken(sy) && NumericToken(r)
  }

  lemma FindTranslate(x: string, y: string, sx: string, sy: string, r: string)
    requires FiveTokens(x, y, sx, sy, r)
    ensures Search(Formatted(x, y, sx, sy, r), TranslateKw, TranslateArgs) == Some((x, y))
    ensures Search(Formatted(x, y, sx, sy, r), TranslateKw, TranslateArgsFixed) == Some((x, Some(y)))
  {
    var tail := ") " + (ScaleKw + sx + " " + sy + ") " + (RotateKw + r + ")"));
    assert Formatted(x, y, sx, sy, r) == TranslateKw + (x + " " + y + tail);
    TranslateArgsOfPair(x, y, tail);
    SearchHit(TranslateKw, x + " " + y + tail, TranslateArgs);
    SearchHit(TranslateKw, x + " " + y + tail, TranslateArgsFixed);
  }

  /** The search for `scale(` skips the translate part. */
  lemma SkipToScale<X>(x: string, y: string, sx: string, sy: string, r: string, at: string -> Option<X>)
    requires FiveTokens(x, y, sx, sy, r)
    ensures Search(Formatted(x, y, sx, sy, r), ScaleKw, at)
              == Search(ScaleKw + (sx + " " + sy + (") " + (RotateKw + r + ")"))), ScaleKw, at)
  {
    var tp := TranslateKw + x + " " + y + ") ";
    var rest := ScaleKw + (sx + " " + sy + (") " + (RotateKw + r + ")")));
    assert Formatted(x, y, sx, sy, r) == tp + rest;
    KeywordsDisjoint();
    PairPartNoMatch(TranslateKw, x, y, ScaleKw);
    SearchSkip(tp, rest, ScaleKw, at);
  }

  /** Past the `s` of `scale(`, no further `scale(` starts. */
  lemma ScaleTailNoMatch(sx: string, sy: string, r: string)
    requires NumericToken(sx) && NumericToken(sy) && NumericToken(r)
    ensures NoMatchIn(ScaleKw[1..] + sx + " " + sy + ") " + (RotateKw + r + ")"), ScaleKw)
  {
    KeywordsDisjoint();
    PairPartNoMatch(ScaleKw[1..], sx, sy, ScaleKw);
    SinglePartNoMatch(RotateKw, r, ScaleKw);
    NoMatchConcat(ScaleKw[1..] + sx + " " + sy + ") ", RotateKw + r + ")", ScaleKw);
  }

  /** Text in which `kw` cannot start holds no match. */
  lemma SearchNone<X>(p: string, kw: string, at: string -> Option<X>)
    requires |kw| >= 2 && NoMatchIn(p, kw)
    ensures Search(p, kw, at) == None
  {
    SearchSkip(p, [], kw, at);
    assert p + [] == p;
  }

  lemma DropFirst(kw: string, a: string, b: string, c: string, d: string)
    requires kw != []
    ensures (kw + (a + b + c + d))[1..] == kw[1..] + a + b + c + d
  {
  }

  /** `parseTransform`'s scale pattern finds nothing: its only candidate,
      `scale(SX SY)`, has no comma. */
  lemma FindNoScale(x: string, y: string, sx: string, sy: string, r: string)
    requires FiveTokens(x, y, sx, sy, r)
    ensures Search(Formatted(x, y, sx, sy, r), ScaleKw, ScaleArgs) == None
  {
    var rr := RotateKw + r + ")";
    SkipToScale(x, y, sx, sy, r, ScaleArgs);
    ScaleArgsOfSpacedPair(sx, sy, ") " + rr);
    ConcatAssoc(sx + " " + sy, ") ", rr);
    SearchMiss(ScaleKw, sx + " " + sy + ") " + rr, ScaleArgs);
    DropFirst(ScaleKw, sx, " ", sy, ") " + rr);
    ConcatAssoc(ScaleKw[1..] + sx + " " + sy, ") ", rr);
    ScaleTailNoMatch(sx, sy, r);
    SearchNone(ScaleKw[1..] + sx + " " + sy + ") " + rr, ScaleKw, ScaleArgs);
  }

  lemma FindScaleFixed(x: string, y: string, sx: string, sy: string, r: string)
    requires FiveTokens(x, y, sx, sy, r)
    ensures Search(Formatted(x, y, sx, sy, r), ScaleKw, ScaleArgsFixed) == Some((sx, Some(sy)))
  {
    var rr := RotateKw + r + ")";
    SkipToScale(x, y, sx, sy, r, ScaleArgsFixed);
    ScaleArgsOfSpacedPair(sx, sy, ") " + rr);
    SearchHit(ScaleKw, sx + " " + sy + (") " + rr), ScaleArgsFixed);
  }

  lemma FindRotate(x: string, y: string, sx: string, sy: string, r: string)
    requires FiveTokens(x, y, sx, sy, r)
    ensures Search(Formatted(x, y, sx, sy, r), RotateKw, RotateArg) == Some(r)
  {
    var tp := TranslateKw + x + " " + y + ") ";
    var sp := ScaleKw + sx + " " + sy + ") ";
    assert Formatted(x, y, sx, sy, r) == (tp + sp) + (RotateKw + (r + ")"));
    KeywordsDisjoint();
    PairPartNoMatch(TranslateKw, x, y, RotateKw);
    PairPartNoMatch(ScaleKw, sx, sy, RotateKw);
    NoMatchConcat(tp, sp, RotateKw);
    SearchSkip(tp + sp, RotateKw + (r + ")"), RotateKw, RotateArg);
    RotateArgOfSingle(r, ")");
    SearchHit(RotateKw, r + ")", RotateArg);
  }

  // ---------------------------------------------------------------------
  // Round trips
  // ---------------------------------------------------------------------

  /** The printed fields of a printable transform are tokens that read
      back as the fields. */
  lemma PrintedFields(t: Transform, show: real -> string)
    requires Printable(t, show)
    ensures var x := ShowOrZero(Some(t.translateX), show);
            var y := ShowOrZero(Some(t.translateY), show);
            var r := ShowOrZero(Some(t.rotate), show);
            && FiveTokens(x, y, show(t.scaleX.value), show(t.scaleY.value), r)
            && Num(ParseFloat(x)) == t.translateX && Num(ParseFloat(y)) == t.translateY
            && Num(ParseFloat(show(t.scaleX.value))) == t.scaleX
            && Num(ParseFloat(show(t.scaleY.value))) == t.scaleY
            && Num(ParseFloat(r)) == t.rotate
  {
    ShowOrZeroExact(t.translateX.value, show);
    ShowOrZeroExact(t.translateY.value, show);
    ShowOrZeroExact(t.rotate.value, show);
  }

  /** Formatting a complete transform and parsing it back with
      `parseTransform` keeps translate and rotate but loses the scale:
      `formatTransform` separates the two scale factors by a space and the
      scale pattern only accepts a comma, so the scale falls back to 1. */
  lemma FormatThenParseLosesScale(t: Transform, show: real -> string)
    requires Printable(t, show)
    ensures ParseTransform(Some(FormatTransform(Full(t), show)))
              == t.(scaleX := Finite(1.0), scaleY := Finite(1.0))
  {
    var x := ShowOrZero(Some(t.translateX), show);
    var y := ShowOrZero(Some(t.translateY), show);
    var sx := show(t.scaleX.value);
    var sy := show(t.scaleY.value);
    var r := ShowOrZero(Some(t.rotate), show);
    FormatFullLayout(t, show);
    assert FormatTransform(Full(t), show) == Formatted(x, y, sx, sy, r);
    PrintedFields(t, show);
    FindTranslate(x, y, sx, sy, r);
    FindNoScale(x, y, sx, sy, r);
    FindRotate(x, y, sx, sy, r);
  }

  /** With the argument patterns corrected, parsing a formatted complete
      transform gives the transform back. */
  lemma FormatThenParseFixed(t: Transform, show: real -> string)
    requires Printable(t, show)
    ensures ParseTransformFixed(Some(FormatTransform(Full(t), show))) == t
  {
    var x := ShowOrZero(Some(t.translateX), show);
    var y := ShowOrZero(Some(t.translateY), show);
    var sx := show(t.scaleX.value);
    var sy := show(t.scaleY.value);
    var r := ShowOrZero(Some(t.rotate), show);
    FormatFullLayout(t, show);
    assert FormatTransform(Full(t), show) == Formatted(x, y, sx, sy, r);
    PrintedFields(t, show);
    FindTranslate(x, y, sx, sy, r);
    FindScaleFixed(x, y, sx, sy, r);
    FindRotate(x, y, sx, sy, r);
  }

  /** Integers are printed exactly. */
  lemma IntegralPrintsExactly(x: real)
    requires x == x.Floor as real
    ensures ExactShow(ShowIntegral, x)
  {
    ParseFloatShowInt(x.Floor);
  }

  /** `translate(10 20) scale(2 2) rotate(45)` parses back with scale 1. */
  lemma ScaleLostExample()
    ensures var t := Transform(Finite(10.0), Finite(20.0), Finite(2.0), Finite(2.0), Finite(45.0));
            ParseTransform(Some(FormatTransform(Full(t), ShowIntegral))).scaleX == Finite(1.0)
            && ParseTransformFixed(Some(FormatTransform(Full(t), ShowIntegral))).scaleX == Finite(2.0)
  {
    var t := Transform(Finite(10.0), Finite(20.0), Finite(2.0), Finite(2.0), Finite(45.0));
    IntegralPrintsExactly(10.0);
    IntegralPrintsExactly(20.0);
    IntegralPrintsExactly(2.0);
    IntegralPrintsExactly(45.0);
    FormatThenParseLosesScale(t, ShowIntegral);
    FormatThenParseFixed(t, ShowIntegral);
  }

  // ---------------------------------------------------------------------
  // One-argument forms and extra rotate arguments
  // ---------------------------------------------------------------------

  lemma NothingAfterRun(rest: string)
    requires rest != [] && rest[0] == ')'
    ensures OptionalCommaSecond(rest) == None && CommaSecond(rest) == None
    ensures ClosesAfterSpaces(rest)
  {
    SkipSpacesAtNonSpace(rest);
  }

  /** `translate(x)`: the pattern needs two runs, so the matcher splits the
      one token, giving all but its last character to tx and the last
      character to ty. The corrected pattern reads tx = x and no ty. */
  lemma TranslateOneToken(x: string, rest: string)
    requires NumericToken(x) && |x| >= 2 && rest != [] && rest[0] == ')'
    ensures TranslateArgs(x + rest) == Some((x[..|x| - 1], x[|x| - 1..]))
    ensures TranslateArgsFixed(x + rest) == Some((x, None))
  {
    var a := x + rest;
    var n := |x|;
    FirstRun(x, rest);
    NothingAfterRun(rest);
    assert a[n..] == rest;
    SplitLastOfRun(a, n);
    FixedSingleRun(a, n);
    assert a[..n - 1] == x[..n - 1] && a[n - 1..n] == x[n - 1..];
    assert a[..n] == x;
  }

  /** A lone run of at least two characters before `)`: the as-written
      pattern gives the run's last character to the second group. */
  lemma SplitLastOfRun(a: string, n: nat)
    requires SkipSpaces(a) == a && 2 <= n <= |a| && NumRun(a) == n
    requires OptionalCommaSecond(a[n..]) == None && ClosesAfterSpaces(a[n..])
    ensures TranslateArgs(a) == Some((a[..n - 1], a[n - 1..n]))
  {
    assert TranslateArgs(a) == TranslateAfterRun(a, n);
  }

  /** A lone run before `)`: the corrected pattern reads it as the only
      argument. */
  lemma FixedSingleRun(a: string, n: nat)
    requires SkipSpaces(a) == a && 1 <= n <= |a| && NumRun(a) == n
    requires OptionalCommaSecond(a[n..]) == None && ClosesAfterSpaces(a[n..])
    ensures TranslateArgsFixed(a) == Some((a[..n], None))
  {
  }

  /** `scale(s)`: one factor for both axes, the same in both versions. */
  lemma ScaleOneToken(x: string, rest: string)
    requires NumericToken(x) && rest != [] && rest[0] == ')'
    ensures ScaleArgs(x + rest) == Some((x, None))
    ensures ScaleArgsFixed(x + rest) == Some((x, None))
  {
    FirstRun(x, rest);
    NothingAfterRun(rest);
  }

  /** An attribute holding only `translate(x)` parses to the split token
      (as written) or to `(x, 0)` (corrected); the other fields keep their
      identity values. */
  lemma ParseTranslateOnly(x: string)
    requires NumericToken(x) && |x| >= 2
    ensures ParseTransform(Some(TranslateKw + x + ")"))
              == Identity.(translateX := Num(ParseFloat(x[..|x| - 1])), translateY := Num(ParseFloat(x[|x| - 1..])))
    ensures ParseTransformFixed(Some(TranslateKw + x + ")"))
              == Identity.(translateX := Num(ParseFloat(x)), translateY := Finite(0.0))
  {
    var s := TranslateKw + x + ")";
    assert s == TranslateKw + (x + ")");
    TranslateOneToken(x, ")");
    SearchHit(TranslateKw, x + ")", TranslateArgs);
    SearchHit(TranslateKw, x + ")", TranslateArgsFixed);
    KeywordsDisjoint();
    SinglePartNoMatch(TranslateKw, x, ScaleKw);
    SinglePartNoMatch(TranslateKw, x, RotateKw);
    SearchNone(s, ScaleKw, ScaleArgs);
    SearchNone(s, ScaleKw, ScaleArgsFixed);
    SearchNone(s, RotateKw, RotateArg);
  }

  /** `translate(10)` is read as a translation by (1, 0); the corrected
      parse gives (10, 0). */
  lemma TranslateTenExample()
    ensures ParseTransform(Some("translate(10)")).translateX == Finite(1.0)
    ensures ParseTransform(Some("translate(10)")).translateY == Finite(0.0)
    ensures ParseTransformFixed(Some("translate(10)")).translateX == Finite(10.0)
    ensures ParseTransformFixed(Some("translate(10)")).translateY == Finite(0.0)
  {
    ShowIntSmall();
    ParseFloatShowInt(0);
    ParseFloatShowInt(1);
    ParseFloatShowInt(10);
    assert NumericToken("10");
    assert TranslateKw + "10" + ")" == "translate(10)";
    assert "10"[..1] == ShowInt(1) && "10"[1..] == ShowInt(0);
    ParseTranslateOnly("10");
  }

  /** An attribute holding only `scale(s)` scales both axes by `s`. */
  lemma ParseScaleOnly(x: string)
    requires NumericToken(x)
    ensures ParseTransform(Some(ScaleKw + x + ")"))
              == Identity.(scaleX := Num(ParseFloat(x)), scaleY := Num(ParseFloat(x)))
    ensures ParseTransformFixed(Some(ScaleKw + x + ")")) == ParseTransform(Some(ScaleKw + x + ")"))
  {
    var s := ScaleKw + x + ")";
    assert s == ScaleKw + (x + ")");
    ScaleOneToken(x, ")");
    SearchHit(ScaleKw, x + ")", ScaleArgs);
    SearchHit(ScaleKw, x + ")", ScaleArgsFixed);
    KeywordsDisjoint();
    SinglePartNoMatch(ScaleKw, x, TranslateKw);
    SinglePartNoMatch(ScaleKw, x, RotateKw);
    SearchNone(s, TranslateKw, TranslateArgs);
    SearchNone(s, TranslateKw, TranslateArgsFixed);
    SearchNone(s, RotateKw, RotateArg);
  }

  /** ` y…` skips to the token `y`, which is one whole run. */
  lemma RunAfterSpace(y: string, rest: string)
    requires NumericToken(y) && rest != [] && !IsNumChar(rest[0])
    ensures SkipSpaces(" " + y + rest) == y + rest
    ensures NumRun(y + rest) == |y| && (y + rest)[|y|..] == rest
  {
    NumCharIsNotPunctuation(y[0]);
    assert (y + rest)[0] == y[0];
    assert " " + y + rest == " " + (y + rest);
    SkipOneSpace(y + rest);
    NumRunOfToken(y, rest);
  }

  /** ` cx cy)…` after the first run: two more runs and the closing
      parenthesis. */
  lemma TwoRunsAfter(cx: string, cy: string, rest: string)
    requires NumericToken(cx) && NumericToken(cy) && rest != [] && rest[0] == ')'
    ensures TwoRunsClose(" " + cx + " " + cy + rest)
    ensures !ClosesAfterSpaces(" " + cx + " " + cy + rest)
  {
    var tail := " " + cy + rest;
    ConcatAssoc(" " + cx + " ", cy, rest);
    ConcatAssoc(" " + cx, " ", cy + rest);
    ConcatAssoc(" ", cy, rest);
    RunAfterSpace(cx, tail);
    RunAfterSpace(cy, rest);
    ClosesAtParen(rest);
    NumCharIsNotPunctuation(cx[0]);
  }

  /** `rotate(a cx cy)`: the centre is matched but dropped; only the angle
      is kept. */
  lemma RotateArgWithCentre(a: string, cx: string, cy: string, rest: string)
    requires NumericToken(a) && NumericToken(cx) && NumericToken(cy) && rest != [] && rest[0] == ')'
    ensures RotateArg(a + " " + cx + " " + cy + rest) == Some(a)
  {
    var t := " " + cx + " " + cy + rest;
    assert a + " " + cx + " " + cy + rest == a + t;
    FirstRun(a, t);
    TwoRunsAfter(cx, cy, rest);
  }

  lemma LetterlessConcat(a: string, b: string)
    requires Letterless(a) && Letterless(b)
    ensures Letterless(a + b)
  {
    assert forall i :: 0 <= i < |a + b| ==> (a + b)[i] == if i < |a| then a[i] else b[i - |a|];
  }

  /** The arguments of `rotate(a cx cy)` hold no letters. */
  lemma CentreArgsLetterless(a: string, cx: string, cy: string)
    requires NumericToken(a) && NumericToken(cx) && NumericToken(cy)
    ensures Letterless(a + " " + cx + " " + cy + ")")
  {
    NumericLetterless(a);
    NumericLetterless(cx);
    NumericLetterless(cy);
    LetterlessConcat(a, " ");
    LetterlessConcat(a + " ", cx);
    LetterlessConcat(a + " " + cx, " ");
    LetterlessConcat(a + " " + cx + " ", cy);
    LetterlessConcat(a + " " + cx + " " + cy, ")");
  }

  lemma ParseRotateWithCentre(a: string, cx: string, cy: string)
    requires NumericToken(a) && NumericToken(cx) && NumericToken(cy)
    ensures ParseTransform(Some(RotateKw + a + " " + cx + " " + cy + ")")) == Identity.(rotate := Num(ParseFloat(a)))
  {
    var args := a + " " + cx + " " + cy + ")";
    var s := RotateKw + a + " " + cx + " " + cy + ")";
    assert s == RotateKw + args;
    RotateArgWithCentre(a, cx, cy, ")");
    SearchHit(RotateKw, args, RotateArg);
    KeywordsDisjoint();
    CentreArgsLetterless(a, cx, cy);
    LetterlessNoMatch(args, TranslateKw);
    LetterlessNoMatch(args, ScaleKw);
    NoMatchConcat(RotateKw, args, TranslateKw);
    NoMatchConcat(RotateKw, args, ScaleKw);
    SearchNone(s, TranslateKw, TranslateArgs);
    SearchNone(s, ScaleKw, ScaleArgs);
  }

  // ---------------------------------------------------------------------
  // Defaults of formatTransform
  // ---------------------------------------------------------------------

  lemma TrimPair(kw: string, a: string, b: string)
    requires kw == TranslateKw || kw == ScaleKw
    ensures Trim(kw + a + " " + b + ") ") == kw + a + " " + b + ")"
  {
    var u := kw + a + " " + b + ")";
    assert kw + a + " " + b + ") " == u + " ";
    assert u[0] == kw[0];
    assert u[|u| - 1] == ')';
    TrimTrailingSpace(u);
  }

  /** Only a scale factor for x: the same factor is written for y. */
  lemma FormatScaleXOnly(sx: Number, show: real -> string)
    ensures FormatTransform(PartialTransform(None, None, Some(sx), None, None), show)
              == ScaleKw + ShowNumber(sx, show) + " " + ShowNumber(sx, show) + ")"
  {
    var pt := PartialTransform(None, None, Some(sx), None, None);
    assert TranslatePart(pt, show) + ScalePart(pt, show) + RotatePart(pt, show)
           == ScaleKw + ShowNumber(sx, show) + " " + ShowNumber(sx, show) + ") ";
    TrimPair(ScaleKw, ShowNumber(sx, show), ShowNumber(sx, show));
  }

  /** Only a scale factor for y: x is written as 1. */
  lemma FormatScaleYOnly(sy: Number, show: real -> string)
    ensures FormatTransform(PartialTransform(None, None, None, Some(sy), None), show)
              == ScaleKw + show(1.0) + " " + ShowNumber(sy, show) + ")"
  {
    var pt := PartialTransform(None, None, None, Some(sy), None);
    assert TranslatePart(pt, show) + ScalePart(pt, show) + RotatePart(pt, show)
           == ScaleKw + show(1.0) + " " + ShowNumber(sy, show) + ") ";
    TrimPair(ScaleKw, show(1.0), ShowNumber(sy, show));
  }

  /** Only a translation along x: y is written as 0, and so is x when it
      is 0 or `NaN`. */
  lemma FormatTranslateXOnly(tx: Number, show: real -> string)
    ensures FormatTransform(PartialTransform(Some(tx), None, None, None, None), show)
              == TranslateKw + ShowOrZero(Some(tx), show) + " 0)"
    ensures tx == NaN || tx == Finite(0.0) ==>
              FormatTransform(PartialTransform(Some(tx), None, None, None, None), show) == "translate(0 0)"
  {
    var pt := PartialTransform(Some(tx), None, None, None, None);
    assert TranslatePart(pt, show) + ScalePart(pt, show) + RotatePart(pt, show)
           == TranslateKw + ShowOrZero(Some(tx), show) + " " + "0" + ") ";
    TrimPair(TranslateKw, ShowOrZero(Some(tx), show), "0");
    assert TranslateKw + ShowOrZero(Some(tx), show) + " " + "0" + ")" == TranslateKw + ShowOrZero(Some(tx), show) + " 0)";
  }

  /** Only a rotation: no translate or scale part is written. */
  lemma FormatRotateOnly(rot: Number, show: real -> string)
    ensures FormatTransform(PartialTransform(None, None, None, None, Some(rot)), show)
              == RotateKw + ShowOrZero(Some(rot), show) + ")"
  {
    var pt := PartialTransform(None, None, None, None, Some(rot));
    var u := RotateKw + ShowOrZero(Some(rot), show) + ")";
    assert TranslatePart(pt, show) + ScalePart(pt, show) + RotatePart(pt, show) == u + " ";
    assert u[0] == 'r' && u[|u| - 1] == ')';
    TrimTrailingSpace(u);
  }
}
