/** The attribute-level helpers of `svgUtils`: the numeric check of
    `getViewBox` and the temporary highlight, which saves an element's
    stroke attributes, overrides them and later restores them. Parsing and
    serialising the SVG document are left to the browser; here an
    attribute is a string that may be absent, an element is its map of
    attributes, and a document is a map from element ids to elements. */
module SvgAttributes {
  import opened Wrappers
  import opened Text
  import opened ViewBoxManager

  // ---------------------------------------------------------------------
  // getViewBox
  // ---------------------------------------------------------------------

  /** `Number(tokens[i])`, where reading past the end gives `undefined`
      and so `NaN`. */
  function Field(ts: seq<string>, i: nat): (v: Option<real>)
    ensures i >= |ts| ==> v.None?
    ensures i < |ts| ==> v == JsNumber(ts[i])
  {
    if i < |ts| then JsNumber(ts[i]) else None
  }

  /** The check of `getViewBox` on the root's `viewBox` attribute: a
      missing or empty attribute gives `None`; otherwise the attribute,
      untrimmed, is split on `/[\s,]+/` and the first four tokens must all
      be numbers. */
  function GetViewBox(attr: Option<string>): (r: Option<ViewBox>)
    ensures attr.None? || attr == Some("") ==> r.None?
    ensures attr.Some? && attr.value != "" ==>
              var ts := SplitRuns(attr.value);
              && (r.Some? <==> FourNumbers(ts))
              && (r.Some? ==> r.value == FieldsOf(ts))
  {
    if attr.None? || attr.value == "" then None
    else
      var ts := SplitRuns(attr.value);
      var r := FromNumbers(Field(ts, 0), Field(ts, 1), Field(ts, 2), Field(ts, 3));
      assert |ts| >= 4 ==> r == ReadFour(ts);
      r
  }

  /** Tokens joined by " " or ", ": fewer than four give `None`; otherwise
      the first four are read in order and the rest are ignored. */
  lemma GetViewBoxJoined(ts: seq<string>, sep: string)
    requires |ts| >= 1 && Tokens(ts)
    requires sep == " " || sep == ", "
    ensures |ts| < 4 ==> GetViewBox(Some(Join(ts, sep))) == None
    ensures |ts| >= 4 ==> GetViewBox(Some(Join(ts, sep)))
                          == FromNumbers(JsNumber(ts[0]), JsNumber(ts[1]), JsNumber(ts[2]), JsNumber(ts[3]))
  {
    TrimJoin(ts, sep);
    SplitRunsJoin(ts, sep);
  }

  /** What `ViewBoxManager.toString` writes is read back, and with either
      separator: the DOM check and `parseViewBoxString` agree on it. */
  lemma GetViewBoxOfToString(vb: ViewBox, show: real -> string)
    requires ShowsExactly(vb, show)
    ensures GetViewBox(Some(ToString(vb, show))) == Some(vb)
    ensures GetViewBox(Some(Join(Shown(vb, show), ", "))) == Some(vb)
    ensures GetViewBox(Some(ToString(vb, show))) == ParseViewBoxString(Some(ToString(vb, show)))
  {
    GetViewBoxJoined(Shown(vb, show), " ");
    GetViewBoxJoined(Shown(vb, show), ", ");
    ParseToString(vb, show);
  }

  /** A leading space makes the split start with an empty token. */
  lemma LeadingSpaceSplit(ts: seq<string>)
    requires |ts| >= 1 && Tokens(ts)
    ensures SplitRuns(" " + Join(ts, " ")) == [[]] + ts
  {
    SkipSpacesOfTokens(ts, " ");
    SplitRunsJoin(ts, " ");
    SplitRunsSeparatorHead(" ", Join(ts, " "));
  }

  lemma NumberOfEmpty()
    ensures JsNumber([]) == Some(0.0)
  {
    assert Trim([]) == [];
  }

  /** `Number("")` is 0, so with a leading space the first field reads as
      0 and the tokens fill the other three. */
  lemma GetViewBoxLeadingSpaceTokens(ts: seq<string>)
    requires |ts| >= 3 && Tokens(ts)
    ensures GetViewBox(Some(" " + Join(ts, " ")))
            == FromNumbers(Some(0.0), JsNumber(ts[0]), JsNumber(ts[1]), JsNumber(ts[2]))
  {
    var str := " " + Join(ts, " ");
    LeadingSpaceSplit(ts);
    GetViewBoxOfSplit(str, [[]] + ts);
    ShiftedFields(ts);
  }

  lemma GetViewBoxOfSplit(str: string, parts: seq<string>)
    requires str != [] && SplitRuns(str) == parts
    ensures GetViewBox(Some(str)) == FromNumbers(Field(parts, 0), Field(parts, 1), Field(parts, 2), Field(parts, 3))
  {
  }

  lemma ShiftedFields(ts: seq<string>)
    requires |ts| >= 3
    ensures var parts := [[]] + ts;
            Field(parts, 0) == Some(0.0) && Field(parts, 1) == JsNumber(ts[0])
            && Field(parts, 2) == JsNumber(ts[1]) && Field(parts, 3) == JsNumber(ts[2])
  {
    NumberOfEmpty();
    var parts := [[]] + ts;
    assert parts[0] == [] && parts[1] == ts[0] && parts[2] == ts[1] && parts[3] == ts[2];
  }

  /** With a leading space every field of a written ViewBox moves one place
      to the right and x reads as 0. */
  lemma GetViewBoxLeadingSpace(vb: ViewBox, show: real -> string)
    requires ShowsExactly(vb, show)
    ensures GetViewBox(Some(" " + ToString(vb, show))) == Some(ViewBox(0.0, vb.x, vb.y, vb.width))
  {
    var ts := Shown(vb, show);
    assert ToString(vb, show) == Join(ts, " ");
    GetViewBoxLeadingSpaceTokens(ts);
    assert ts[0] == show(vb.x) && ts[1] == show(vb.y) && ts[2] == show(vb.width);
  }

  /** The default ViewBox written with a leading space is read with a zero
      width. */
  lemma GetViewBoxLeadingSpaceExample()
    ensures GetViewBox(Some(" " + ToString(ViewBox(0.0, 0.0, 100.0, 100.0), ShowIntegral)))
            == Some(ViewBox(0.0, 0.0, 0.0, 100.0))
  {
    ShowsIntegralExactly(ViewBox(0.0, 0.0, 100.0, 100.0));
    GetViewBoxLeadingSpace(ViewBox(0.0, 0.0, 100.0, 100.0), ShowIntegral);
  }

  /** The check with the attribute trimmed first, as `parseViewBoxString`
      does. */
  function GetViewBoxTrimmed(attr: Option<string>): (r: Option<ViewBox>)
    ensures attr.None? || Trim(attr.value) == "" ==> r.None?
    ensures attr.Some? && Trim(attr.value) != "" ==>
              var ts := SplitRuns(Trim(attr.value));
              && (r.Some? <==> FourNumbers(ts))
              && (r.Some? ==> r.value == FieldsOf(ts))
  {
    if attr.None? then None else GetViewBox(Some(Trim(attr.value)))
  }

  lemma TrimLeadingSpace(ts: seq<string>)
    requires |ts| >= 1 && Tokens(ts)
    ensures Trim(" " + Join(ts, " ")) == Join(ts, " ")
  {
    var j := Join(ts, " ");
    SkipSpacesOfTokens(ts, " ");
    TrimJoin(ts, " ");
    assert (" " + j)[1..] == j;
    assert SkipSpaces(" " + j) == j;
  }

  /** Trimmed, leading white space no longer shifts the fields, and what
      `toString` writes is still read back. */
  lemma GetViewBoxTrimmedLeadingSpace(vb: ViewBox, show: real -> string)
    requires ShowsExactly(vb, show)
    ensures GetViewBoxTrimmed(Some(" " + ToString(vb, show))) == Some(vb)
    ensures GetViewBoxTrimmed(Some(ToString(vb, show))) == Some(vb)
  {
    TrimLeadingSpace(Shown(vb, show));
    TrimJoin(Shown(vb, show), " ");
    GetViewBoxOfToString(vb, show);
  }

  // ---------------------------------------------------------------------
  // Temporary highlight
  // ---------------------------------------------------------------------

  type Attrs = map<string, string>

  /** Element id to attributes. */
  type Doc = map<string, Attrs>

  const Stroke: string := "stroke"
  const StrokeWidth: string := "stroke-width"
  const StrokeDasharray: string := "stroke-dasharray"
  const SavedStroke: string := "data-original-stroke"
  const SavedStrokeWidth: string := "data-original-stroke-width"
  const SavedStrokeDasharray: string := "data-original-stroke-dasharray"

  /** The six attributes the highlight reads or writes. */
  predicate Managed(k: string) {
    k == Stroke || k == StrokeWidth || k == StrokeDasharray
    || k == SavedStroke || k == SavedStrokeWidth || k == SavedStrokeDasharray
  }

  predicate NoSavedAttrs(a: Attrs) {
    SavedStroke !in a && SavedStrokeWidth !in a && SavedStrokeDasharray !in a
  }

  /** `getAttribute`: `null` when absent. */
  function Get(a: Attrs, k: string): (v: Option<string>)
    ensures v.Some? <==> k in a
    ensures v.Some? ==> v.value == a[k]
  {
    if k in a then Some(a[k]) else None
  }

  /** A string is truthy when it is present and not empty. */
  predicate Truthy(v: Option<string>) {
    v.Some? && v.value != ""
  }

  /** `v || d`. */
  function OrElse(v: Option<string>, d: string): (r: string)
    ensures Truthy(v) ==> r == v.value
    ensures !Truthy(v) ==> r == d
  {
    if Truthy(v) then v.value else d
  }

  /** `setAttribute(k, v)` when `v` is truthy, `removeAttribute(k)`
      otherwise. */
  function SetOrRemove(a: Attrs, k: string, v: Option<string>, keep: bool): (r: Attrs)
    ensures keep && Truthy(v) ==> k in r && r[k] == v.value
    ensures !(keep && Truthy(v)) ==> k !in r
    ensures forall j :: j != k ==> (j in r <==> j in a) && (j in r ==> r[j] == a[j])
  {
    if keep && Truthy(v) then a[k := v.value] else a - {k}
  }

  datatype Styles = Styles(stroke: string, strokeWidth: string, strokeDasharray: Option<string>)

  /** `applyTempHighlightToSvgElement` on one element: the current stroke,
      width and dash pattern are saved (as "none", "0" and "none" when
      absent or empty), then the highlight stroke and width are set, and
      the dash pattern when one is given. */
  function Highlight(a: Attrs, st: Styles): (r: Attrs)
    ensures Get(r, SavedStroke) == Some(OrElse(Get(a, Stroke), "none"))
    ensures Get(r, SavedStrokeWidth) == Some(OrElse(Get(a, StrokeWidth), "0"))
    ensures Get(r, SavedStrokeDasharray) == Some(OrElse(Get(a, StrokeDasharray), "none"))
    ensures Get(r, Stroke) == Some(st.stroke) && Get(r, StrokeWidth) == Some(st.strokeWidth)
    ensures Truthy(st.strokeDasharray) ==> Get(r, StrokeDasharray) == st.strokeDasharray
    ensures !Truthy(st.strokeDasharray) ==> Get(r, StrokeDasharray) == Get(a, StrokeDasharray)
    ensures forall k :: !Managed(k) ==> (k in r <==> k in a) && (k in r ==> r[k] == a[k])
  {
    var saved := a[SavedStroke := OrElse(Get(a, Stroke), "none")]
                  [SavedStrokeWidth := OrElse(Get(a, StrokeWidth), "0")]
                  [SavedStrokeDasharray := OrElse(Get(a, StrokeDasharray), "none")];
    var marked := saved[Stroke := st.stroke][StrokeWidth := st.strokeWidth];
    if Truthy(st.strokeDasharray) then marked[StrokeDasharray := st.strokeDasharray.value] else marked
  }

  /** `removeTempHighlightFromSvgElement` on one element: stroke and width
      are restored from the saved values when these are truthy and removed
      otherwise; the dash pattern likewise, except that a saved "none" also
      removes it; the three saved attributes are deleted. */
  function Unhighlight(a: Attrs): (r: Attrs)
    ensures NoSavedAttrs(r)
    ensures Truthy(Get(a, SavedStroke)) ==> Get(r, Stroke) == Get(a, SavedStroke)
    ensures !Truthy(Get(a, SavedStroke)) ==> Stroke !in r
    ensures Truthy(Get(a, SavedStrokeWidth)) ==> Get(r, StrokeWidth) == Get(a, SavedStrokeWidth)
    ensures !Truthy(Get(a, SavedStrokeWidth)) ==> StrokeWidth !in r
    ensures (Truthy(Get(a, SavedStrokeDasharray)) && a[SavedStrokeDasharray] != "none")
              ==> Get(r, StrokeDasharray) == Get(a, SavedStrokeDasharray)
    ensures !(Truthy(Get(a, SavedStrokeDasharray)) && a[SavedStrokeDasharray] != "none") ==> StrokeDasharray !in r
    ensures forall k :: !Managed(k) ==> (k in r <==> k in a) && (k in r ==> r[k] == a[k])
  {
    var s := Get(a, SavedStroke);
    var w := Get(a, SavedStrokeWidth);
    var d := Get(a, SavedStrokeDasharray);
    var a1 := SetOrRemove(a, Stroke, s, true);
    var a2 := SetOrRemove(a1, StrokeWidth, w, true);
    var a3 := SetOrRemove(a2, StrokeDasharray, d, d.Some? && d.value != "none");
    a3 - {SavedStroke, SavedStrokeWidth, SavedStrokeDasharray}
  }

  /** The document-level operations: an unknown id leaves the document as
      it is, and only the element with the id changes. */
  function ApplyTempHighlight(doc: Doc, id: string, st: Styles): (r: Doc)
    ensures r.Keys == doc.Keys
    ensures id in doc ==> r[id] == Highlight(doc[id], st)
    ensures forall j :: j in doc && j != id ==> r[j] == doc[j]
  {
    if id in doc then doc[id := Highlight(doc[id], st)] else doc
  }

  function RemoveTempHighlight(doc: Doc, id: string): (r: Doc)
    ensures r.Keys == doc.Keys
    ensures id in doc ==> r[id] == Unhighlight(doc[id])
    ensures forall j :: j in doc && j != id ==> r[j] == doc[j]
  {
    if id in doc then doc[id := Unhighlight(doc[id])] else doc
  }

  /** Two attribute maps that agree on every key are equal. */
  lemma AttrsExt(r: Attrs, a: Attrs)
    requires forall k :: Get(r, k) == Get(a, k)
    ensures r == a
  {
    assert forall k :: k in r <==> k in a by {
      forall k ensures k in r <==> k in a { assert Get(r, k).Some? == Get(a, k).Some?; }
    }
    forall k | k in r ensures r[k] == a[k] { assert Get(r, k) == Get(a, k); }
  }

  /** An element whose stroke and width are set (non-empty) and whose dash
      pattern is either absent or a real pattern gets all its attributes
      back when the highlight is removed. */
  lemma HighlightRoundTrip(a: Attrs, st: Styles)
    requires NoSavedAttrs(a)
    requires Truthy(Get(a, Stroke)) && Truthy(Get(a, StrokeWidth))
    requires StrokeDasharray in a ==> a[StrokeDasharray] != "" && a[StrokeDasharray] != "none"
    ensures Unhighlight(Highlight(a, st)) == a
  {
    var h := Highlight(a, st);
    var r := Unhighlight(h);
    forall k ensures Get(r, k) == Get(a, k) {
      if k == Stroke || k == StrokeWidth || k == StrokeDasharray {
      } else if k == SavedStroke || k == SavedStrokeWidth || k == SavedStrokeDasharray {
      } else {
        assert !Managed(k);
      }
    }
    AttrsExt(r, a);
  }

  /** An element with a stroke but no stroke-width comes back with
      `stroke-width="0"`, which hides the stroke it had. */
  lemma HighlightAddsZeroWidth(st: Styles)
    ensures Unhighlight(Highlight(map[Stroke := "red"], st)) == map[Stroke := "red", StrokeWidth := "0"]
  {
    var a := map[Stroke := "red"];
    var e := map[Stroke := "red", StrokeWidth := "0"];
    var r := Unhighlight(Highlight(a, st));
    forall k ensures Get(r, k) == Get(e, k) {
      if k == Stroke || k == StrokeWidth || k == StrokeDasharray {
      } else if k == SavedStroke || k == SavedStrokeWidth || k == SavedStrokeDasharray {
      } else {
        assert !Managed(k);
      }
    }
    AttrsExt(r, e);
  }

  /** The highlight as evidently intended: an attribute is saved only when
      present and restored exactly when it was saved. */
  function HighlightExact(a: Attrs, st: Styles): (r: Attrs)
    ensures Get(r, Stroke) == Some(st.stroke) && Get(r, StrokeWidth) == Some(st.strokeWidth)
    ensures Truthy(st.strokeDasharray) ==> Get(r, StrokeDasharray) == st.strokeDasharray
    ensures !Truthy(st.strokeDasharray) ==> Get(r, StrokeDasharray) == Get(a, StrokeDasharray)
    ensures Get(r, SavedStroke) == Get(a, Stroke)
    ensures Get(r, SavedStrokeWidth) == Get(a, StrokeWidth)
    ensures Get(r, SavedStrokeDasharray) == Get(a, StrokeDasharray)
    ensures forall k :: !Managed(k) ==> (k in r <==> k in a) && (k in r ==> r[k] == a[k])
  {
    var a0 := a - {SavedStroke, SavedStrokeWidth, SavedStrokeDasharray};
    var a1 := if Stroke in a then a0[SavedStroke := a[Stroke]] else a0;
    var a2 := if StrokeWidth in a then a1[SavedStrokeWidth := a[StrokeWidth]] else a1;
    var a3 := if StrokeDasharray in a then a2[SavedStrokeDasharray := a[StrokeDasharray]] else a2;
    var marked := a3[Stroke := st.stroke][StrokeWidth := st.strokeWidth];
    if Truthy(st.strokeDasharray) then marked[StrokeDasharray := st.strokeDasharray.value] else marked
  }

  function Restore(a: Attrs, k: string, saved: string): (r: Attrs)
    ensures Get(r, k) == Get(a, saved)
    ensures forall j :: j != k ==> (j in r <==> j in a) && (j in r ==> r[j] == a[j])
  {
    if saved in a then a[k := a[saved]] else a - {k}
  }

  function UnhighlightExact(a: Attrs): (r: Attrs)
    ensures NoSavedAttrs(r)
    ensures Get(r, Stroke) == Get(a, SavedStroke)
    ensures Get(r, StrokeWidth) == Get(a, SavedStrokeWidth)
    ensures Get(r, StrokeDasharray) == Get(a, SavedStrokeDasharray)
    ensures forall k :: !Managed(k) ==> (k in r <==> k in a) && (k in r ==> r[k] == a[k])
  {
    var a1 := Restore(a, Stroke, SavedStroke);
    var a2 := Restore(a1, StrokeWidth, SavedStrokeWidth);
    var a3 := Restore(a2, StrokeDasharray, SavedStrokeDasharray);
    a3 - {SavedStroke, SavedStrokeWidth, SavedStrokeDasharray}
  }

  /** With exact saving, removing the highlight restores every element
      that carried no saved attributes of its own. */
  lemma HighlightExactRoundTrip(a: Attrs, st: Styles)
    requires NoSavedAttrs(a)
    ensures UnhighlightExact(HighlightExact(a, st)) == a
  {
    var r := UnhighlightExact(HighlightExact(a, st));
    forall k ensures Get(r, k) == Get(a, k) {
      if k == Stroke || k == StrokeWidth || k == StrokeDasharray {
      } else if k == SavedStroke || k == SavedStrokeWidth || k == SavedStrokeDasharray {
      } else {
        assert !Managed(k);
      }
    }
    AttrsExt(r, a);
  }

  /** At the document level, removing the highlight restores the whole
      document when the element qualifies for `HighlightRoundTrip` or the
      id does not exist. */
  lemma DocumentRoundTrip(doc: Doc, id: string, st: Styles)
    requires id in doc ==> NoSavedAttrs(doc[id]) && Truthy(Get(doc[id], Stroke)) && Truthy(Get(doc[id], StrokeWidth))
    requires id in doc && StrokeDasharray in doc[id] ==> doc[id][StrokeDasharray] != "" && doc[id][StrokeDasharray] != "none"
    ensures RemoveTempHighlight(ApplyTempHighlight(doc, id, st), id) == doc
  {
    if id in doc {
      HighlightRoundTrip(doc[id], st);
    }
  }
}
