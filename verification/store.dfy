/** The state transitions of the logo store that do not render SVG
    themselves: `updateElementProperty` (a dotted-path write into an
    element's property object), `updateTextProperty`, `setTaglineEnabled`
    and the text placement of `selectTemplate`. The store is an immutable
    record and each action a function from the old record to the new one.
    The SVG work the actions delegate (extracting element properties,
    applying them to the template, reading the root's `viewBox`
    attribute) is passed in as opaque functions. */
module LogoStore {
  import opened Wrappers
  import opened Text
  import opened ViewBoxManager
  import SvgAttributes

  // ---------------------------------------------------------------------
  // Data
  // ---------------------------------------------------------------------

  datatype Screen = TemplateSelection | Editor | Typography | Export

  datatype TextAnchor = Start | Middle | End

  datatype TextProps = TextProps(
    content: string, fontFamily: string, fontSize: real, fill: string,
    x: real, y: real, textAnchor: TextAnchor)

  /** A JSON value as the element properties hold them after the deep
      clone. */
  datatype Json = JNull | JBool(b: bool) | JNum(n: real) | JStr(s: string) | JObj(fields: map<string, Json>)

  /** The properties object of one element. */
  type Props = map<string, Json>

  datatype Template = Template(id: string, svgContent: string)

  datatype Store = Store(
    screen: Screen,
    templates: seq<Template>,
    selectedTemplateId: Option<string>,
    originalIconSvg: Option<string>,
    editedIconSvg: Option<string>,
    elementsProps: map<string, Props>,
    selectedElementId: Option<string>,
    companyName: TextProps,
    tagline: Option<TextProps>)

  const DefaultFontFamily: string := "Inter, sans-serif"
  const DefaultFontSize: real := 24.0
  const DefaultTextColor: string := "#FFFFFF"
  const CompanyNameText: string := "Company Name"
  const TaglineText: string := "Your awesome tagline"

  /** `initialTextProps`: centred text at x = 50 in the default font. */
  function InitialTextProps(content: string, y: real): TextProps {
    TextProps(content, DefaultFontFamily, DefaultFontSize, DefaultTextColor, 50.0, y, Middle)
  }

  /** The store before any action. */
  function InitialStore(templates: seq<Template>): Store {
    Store(TemplateSelection, templates, None, None, None, map[], None, InitialTextProps(CompanyNameText, 80.0), None)
  }

  /** A string field is truthy when present and not empty. */
  predicate Truthy(s: Option<string>) {
    s.Some? && s.value != ""
  }

  // ---------------------------------------------------------------------
  // Dotted-path writes
  // ---------------------------------------------------------------------

  /** JavaScript truthiness of a JSON value. */
  predicate JsonTruthy(j: Json) {
    match j
    case JNull => false
    case JBool(b) => b
    case JNum(n) => n != 0.0
    case JStr(s) => s != ""
    case JObj(_) => true
  }

  /** The value at `path`, if every step before the last is an object. */
  function GetPath(obj: Props, path: seq<string>): Option<Json>
    requires |path| >= 1
    decreases |path|
  {
    if path[0] !in obj then None
    else if |path| == 1 then Some(obj[path[0]])
    else if obj[path[0]].JObj? then GetPath(obj[path[0]].fields, path[1..])
    else None
  }

  /** Where the walk down `path` meets a truthy non-object before the last
      key, and the write throws a `TypeError`. */
  predicate Blocked(obj: Props, path: seq<string>)
    requires |path| >= 1
    decreases |path|
  {
    && |path| >= 2
    && path[0] in obj && JsonTruthy(obj[path[0]])
    && (!obj[path[0]].JObj? || Blocked(obj[path[0]].fields, path[1..]))
  }

  /** The walk of `updateElementProperty`: every key before the last whose
      value is falsy is replaced by a fresh object; a truthy non-object
      there makes the assignment throw (`None`). The last key is set to
      `v`. */
  function SetPath(obj: Props, path: seq<string>, v: Json): (r: Option<Props>)
    requires |path| >= 1
    ensures r.Some? ==> path[0] in r.value
    ensures r.Some? ==> forall k :: k != path[0] ==> (k in r.value <==> k in obj) && (k in obj ==> r.value[k] == obj[k])
    decreases |path|
  {
    if |path| == 1 then Some(obj[path[0] := v])
    else
      var child := if path[0] in obj && JsonTruthy(obj[path[0]]) then obj[path[0]] else JObj(map[]);
      match child
      case JObj(m) =>
        (match SetPath(m, path[1..], v)
         case Some(m') => Some(obj[path[0] := JObj(m')])
         case None => None)
      case _ => None
  }

  /** A successful write can be read back at the same path. */
  lemma {:induction false} SetPathThenGet(obj: Props, path: seq<string>, v: Json)
    requires |path| >= 1 && SetPath(obj, path, v).Some?
    ensures GetPath(SetPath(obj, path, v).value, path) == Some(v)
    decreases |path|
  {
    if |path| > 1 {
      var child := if path[0] in obj && JsonTruthy(obj[path[0]]) then obj[path[0]] else JObj(map[]);
      SetPathThenGet(child.fields, path[1..], v);
    }
  }

  /** The write fails exactly when the path is blocked. */
  lemma {:induction false} SetPathFailsIffBlocked(obj: Props, path: seq<string>, v: Json)
    requires |path| >= 1
    ensures SetPath(obj, path, v).None? <==> Blocked(obj, path)
    decreases |path|
  {
    if |path| > 1 && path[0] in obj && JsonTruthy(obj[path[0]]) && obj[path[0]].JObj? {
      SetPathFailsIffBlocked(obj[path[0]].fields, path[1..], v);
    } else if |path| > 1 && !(path[0] in obj && JsonTruthy(obj[path[0]])) {
      SetPathFailsIffBlocked(map[], path[1..], v);
      EmptyNotBlocked(path[1..]);
    }
  }

  /** The write fails exactly on a blocked path, and otherwise puts `v` at
      the path. */
  lemma SetPathOutcome(obj: Props, path: seq<string>, v: Json)
    requires |path| >= 1
    ensures SetPath(obj, path, v).None? <==> Blocked(obj, path)
    ensures SetPath(obj, path, v).Some? ==> GetPath(SetPath(obj, path, v).value, path) == Some(v)
  {
    SetPathFailsIffBlocked(obj, path, v);
    if SetPath(obj, path, v).Some? {
      SetPathThenGet(obj, path, v);
    }
  }

  lemma EmptyNotBlocked(path: seq<string>)
    requires |path| >= 1
    ensures !Blocked(map[], path)
  {
  }

  /** A write never disturbs a path that leaves `path` at some key: the
      sibling of any key on the way keeps its value. */
  lemma {:induction false} SetPathKeepsSiblings(obj: Props, path: seq<string>, q: seq<string>, v: Json)
    requires |path| >= 1 && |q| >= 1 && SetPath(obj, path, v).Some?
    requires exists i :: 0 <= i < |q| && i < |path| && q[..i] == path[..i] && q[i] != path[i]
    ensures GetPath(SetPath(obj, path, v).value, q) == GetPath(obj, q)
    decreases |path|
  {
    var r := SetPath(obj, path, v).value;
    var i :| 0 <= i < |q| && i < |path| && q[..i] == path[..i] && q[i] != path[i];
    if i > 0 {
      assert q[0] == q[..i][0] == path[..i][0] == path[0];
      assert |path| > 1;
      var child := if path[0] in obj && JsonTruthy(obj[path[0]]) then obj[path[0]] else JObj(map[]);
      var m := child.fields;
      var m' := SetPath(m, path[1..], v).value;
      assert r[path[0]] == JObj(m');
      if |q| > 1 {
        assert q[1..][..i - 1] == q[..i][1..] == path[..i][1..] == path[1..][..i - 1];
        assert q[1..][i - 1] == q[i] && path[1..][i - 1] == path[i];
        SetPathKeepsSiblings(m, path[1..], q[1..], v);
        if path[0] in obj && JsonTruthy(obj[path[0]]) {
          assert GetPath(obj, q) == GetPath(m, q[1..]);
        } else {
          EmptyHasNothing(q[1..]);
          assert GetPath(m, q[1..]) == None;
          assert GetPath(obj, q) == None;
        }
      }
    }
  }

  lemma EmptyHasNothing(path: seq<string>)
    requires |path| >= 1
    ensures GetPath(map[], path) == None
  {
  }

  /** `updateElementProperty`: the path is split on "."; the element's
      properties (an empty object when it has none) are written; on
      success the edited SVG is regenerated when there is an original SVG.
      A `TypeError` from the walk leaves the store unchanged. */
  function UpdateElementProperty(
    s: Store, elementId: string, propertyPath: string, v: Json,
    applyProps: (string, map<string, Props>) -> string): (r: Store)
    ensures r.elementsProps.Keys == s.elementsProps.Keys || r.elementsProps.Keys == s.elementsProps.Keys + {elementId}
    ensures forall id :: id in s.elementsProps && id != elementId ==> r.elementsProps[id] == s.elementsProps[id]
    ensures r.companyName == s.companyName && r.tagline == s.tagline && r.screen == s.screen
    ensures r.selectedElementId == s.selectedElementId && r.originalIconSvg == s.originalIconSvg
    ensures r.selectedTemplateId == s.selectedTemplateId && r.templates == s.templates
    ensures !Truthy(s.originalIconSvg) ==> r.editedIconSvg == s.editedIconSvg
    ensures Blocked(PropsOf(s, elementId), SplitOn(propertyPath, '.')) ==> r == s
    ensures !Blocked(PropsOf(s, elementId), SplitOn(propertyPath, '.')) ==>
              && SetPath(PropsOf(s, elementId), SplitOn(propertyPath, '.'), v).Some?
              && elementId in r.elementsProps
              && r.elementsProps[elementId] == SetPath(PropsOf(s, elementId), SplitOn(propertyPath, '.'), v).value
    ensures var before := PropsOf(s, elementId);
            !Blocked(before, SplitOn(propertyPath, '.')) ==>
              forall k :: k in before && k != SplitOn(propertyPath, '.')[0] ==>
                k in r.elementsProps[elementId] && r.elementsProps[elementId][k] == before[k]
    ensures !Blocked(PropsOf(s, elementId), SplitOn(propertyPath, '.')) ==>
              && elementId in r.elementsProps
              && GetPath(r.elementsProps[elementId], SplitOn(propertyPath, '.')) == Some(v)
              && (Truthy(s.originalIconSvg) ==>
                    r.editedIconSvg == Some(applyProps(s.originalIconSvg.value, r.elementsProps)))
  {
    var path := SplitOn(propertyPath, '.');
    var props := PropsOf(s, elementId);
    SetPathOutcome(props, path, v);
    match SetPath(props, path, v)
    case None => s
    case Some(p) =>
      var eps := s.elementsProps[elementId := p];
      if Truthy(s.originalIconSvg) then s.(elementsProps := eps, editedIconSvg := Some(applyProps(s.originalIconSvg.value, eps)))
      else s.(elementsProps := eps)
  }

  /** The element's properties before the write, as the action sees them. */
  function PropsOf(s: Store, elementId: string): Props {
    if elementId in s.elementsProps then s.elementsProps[elementId] else map[]
  }

  /** `updateElementProperty(id, "transform.rotate", v)` on an element
      without a transform creates the transform object. */
  lemma NestedWriteCreatesObject(v: Json)
    ensures SetPath(map[], ["transform", "rotate"], v) == Some(map["transform" := JObj(map["rotate" := v])])
  {
  }

  /** A truthy number where an object is expected makes the write throw. */
  lemma NestedWriteThroughNumberFails(v: Json)
    ensures SetPath(map["transform" := JNum(1.0)], ["transform", "rotate"], v) == None
  {
  }

  // ---------------------------------------------------------------------
  // Text properties
  // ---------------------------------------------------------------------

  datatype TextSlot = CompanyName | Tagline

  datatype TextField = ContentField | FontFamilyField | FontSizeField | FillField | XField | YField | TextAnchorField

  /** One property and its new value. */
  datatype TextEdit =
    | Content(content: string) | FontFamily(family: string) | FontSize(size: real)
    | Fill(fill: string) | X(x: real) | Y(y: real) | Anchor(anchor: TextAnchor)

  function FieldOf(e: TextEdit): TextField {
    match e
    case Content(_) => ContentField
    case FontFamily(_) => FontFamilyField
    case FontSize(_) => FontSizeField
    case Fill(_) => FillField
    case X(_) => XField
    case Y(_) => YField
    case Anchor(_) => TextAnchorField
  }

  /** The current value of one property, as an edit that would set it. */
  function Read(t: TextProps, f: TextField): (e: TextEdit)
    ensures FieldOf(e) == f
  {
    match f
    case ContentField => Content(t.content)
    case FontFamilyField => FontFamily(t.fontFamily)
    case FontSizeField => FontSize(t.fontSize)
    case FillField => Fill(t.fill)
    case XField => X(t.x)
    case YField => Y(t.y)
    case TextAnchorField => Anchor(t.textAnchor)
  }

  /** `{ ...t, [property]: value }`. */
  function ApplyEdit(t: TextProps, e: TextEdit): (r: TextProps)
    ensures Read(r, FieldOf(e)) == e
    ensures forall f :: f != FieldOf(e) ==> Read(r, f) == Read(t, f)
  {
    match e
    case Content(c) => t.(content := c)
    case FontFamily(ff) => t.(fontFamily := ff)
    case FontSize(sz) => t.(fontSize := sz)
    case Fill(c) => t.(fill := c)
    case X(v) => t.(x := v)
    case Y(v) => t.(y := v)
    case Anchor(a) => t.(textAnchor := a)
  }

  /** Reading every property determines the text record. */
  lemma ReadDetermines(a: TextProps, b: TextProps)
    requires forall f :: Read(a, f) == Read(b, f)
    ensures a == b
  {
    assert Read(a, ContentField) == Read(b, ContentField);
    assert Read(a, FontFamilyField) == Read(b, FontFamilyField);
    assert Read(a, FontSizeField) == Read(b, FontSizeField);
    assert Read(a, FillField) == Read(b, FillField);
    assert Read(a, XField) == Read(b, XField);
    assert Read(a, YField) == Read(b, YField);
    assert Read(a, TextAnchorField) == Read(b, TextAnchorField);
  }

  /** `updateTextProperty`: an absent tagline stays absent; otherwise only
      the named property of the chosen slot changes. */
  function UpdateTextProperty(s: Store, slot: TextSlot, e: TextEdit): (r: Store)
    ensures slot == Tagline && s.tagline.None? ==> r == s
    ensures slot == CompanyName ==> r.tagline == s.tagline && Read(r.companyName, FieldOf(e)) == e
    ensures slot == Tagline && s.tagline.Some? ==>
              r.companyName == s.companyName && r.tagline.Some? && Read(r.tagline.value, FieldOf(e)) == e
    ensures slot == CompanyName ==> forall f :: f != FieldOf(e) ==> Read(r.companyName, f) == Read(s.companyName, f)
    ensures slot == Tagline && s.tagline.Some? ==>
              forall f :: f != FieldOf(e) ==> Read(r.tagline.value, f) == Read(s.tagline.value, f)
    ensures r.elementsProps == s.elementsProps && r.screen == s.screen && r.editedIconSvg == s.editedIconSvg
    ensures && r.selectedElementId == s.selectedElementId && r.originalIconSvg == s.originalIconSvg
            && r.selectedTemplateId == s.selectedTemplateId && r.templates == s.templates
  {
    match slot
    case CompanyName => s.(companyName := ApplyEdit(s.companyName, e))
    case Tagline => if s.tagline.None? then s else s.(tagline := Some(ApplyEdit(s.tagline.value, e)))
  }

  /** Setting a property to the value it already has changes nothing. */
  lemma UpdateTextPropertyUnchanged(s: Store, slot: TextSlot, f: TextField)
    requires slot == Tagline ==> s.tagline.Some?
    ensures var current := if slot == CompanyName then s.companyName else s.tagline.value;
            UpdateTextProperty(s, slot, Read(current, f)) == s
  {
    var current := if slot == CompanyName then s.companyName else s.tagline.value;
    ReadDetermines(ApplyEdit(current, Read(current, f)), current);
  }

  /** Two edits of different properties commute. */
  lemma UpdateTextPropertyCommutes(s: Store, slot: TextSlot, e1: TextEdit, e2: TextEdit)
    requires FieldOf(e1) != FieldOf(e2)
    ensures UpdateTextProperty(UpdateTextProperty(s, slot, e1), slot, e2)
            == UpdateTextProperty(UpdateTextProperty(s, slot, e2), slot, e1)
  {
    if slot == CompanyName {
      CompanyNameEditsCommute(s, e1, e2);
    } else if s.tagline.Some? {
      TaglineEditsCommute(s, e1, e2);
    }
  }

  lemma CompanyNameEditsCommute(s: Store, e1: TextEdit, e2: TextEdit)
    requires FieldOf(e1) != FieldOf(e2)
    ensures UpdateTextProperty(UpdateTextProperty(s, CompanyName, e1), CompanyName, e2)
            == UpdateTextProperty(UpdateTextProperty(s, CompanyName, e2), CompanyName, e1)
  {
    EditsCommute(s.companyName, e1, e2);
  }

  lemma TaglineEditsCommute(s: Store, e1: TextEdit, e2: TextEdit)
    requires FieldOf(e1) != FieldOf(e2) && s.tagline.Some?
    ensures UpdateTextProperty(UpdateTextProperty(s, Tagline, e1), Tagline, e2)
            == UpdateTextProperty(UpdateTextProperty(s, Tagline, e2), Tagline, e1)
  {
    EditsCommute(s.tagline.value, e1, e2);
  }

  lemma EditsCommute(t: TextProps, e1: TextEdit, e2: TextEdit)
    requires FieldOf(e1) != FieldOf(e2)
    ensures ApplyEdit(ApplyEdit(t, e1), e2) == ApplyEdit(ApplyEdit(t, e2), e1)
  {
    ReadDetermines(ApplyEdit(ApplyEdit(t, e1), e2), ApplyEdit(ApplyEdit(t, e2), e1));
  }

  // ---------------------------------------------------------------------
  // Text placement
  // ---------------------------------------------------------------------

  const CompanyNameRatio: real := 0.85
  const TaglineRatio: real := 0.95

  /** `vb.y + vb.height * ratio`. */
  function PlacedY(vb: ViewBox, ratio: real): real {
    vb.y + vb.height * ratio
  }

  /** In a ViewBox of positive height both lines lie inside it, the
      company name above the tagline. */
  lemma PlacementInside(vb: ViewBox)
    requires vb.height > 0.0
    ensures vb.y < PlacedY(vb, CompanyNameRatio) < PlacedY(vb, TaglineRatio) < vb.y + vb.height
  {
  }

  /** The template's ViewBox, or (0, 0, 100, 100) when its `viewBox`
      attribute is missing or not four numbers. */
  function TemplateViewBox(svg: string, viewBoxAttr: string -> Option<string>): ViewBox {
    SvgAttributes.GetViewBox(viewBoxAttr(svg)).GetOr(CreateDefault())
  }

  /** `setTaglineEnabled`: disabling clears the tagline; enabling creates
      one only when there is none, placed at 95% of the original SVG's
      ViewBox height (of (0, 0, 100, 100) when there is no original SVG or
      no readable ViewBox). */
  function SetTaglineEnabled(s: Store, enabled: bool, viewBoxAttr: string -> Option<string>): (r: Store)
    ensures !enabled ==> r.tagline.None?
    ensures enabled ==> r.tagline.Some?
    ensures enabled && s.tagline.Some? ==> r == s
    ensures !enabled ==> r == s.(tagline := None)
    ensures enabled && s.tagline.None? ==> r == s.(tagline := r.tagline)
    ensures r.companyName == s.companyName && r.elementsProps == s.elementsProps && r.screen == s.screen
  {
    if enabled && s.tagline.None? then
      s.(tagline := Some(InitialTextProps(TaglineText, TaglineY(OriginalViewBox(s, viewBoxAttr)))))
    else if !enabled then s.(tagline := None)
    else s
  }

  /** The ViewBox read from the original SVG, or (0, 0, 100, 100) when there
      is no original SVG; `None` when its `viewBox` attribute is unreadable. */
  function OriginalViewBox(s: Store, viewBoxAttr: string -> Option<string>): Option<ViewBox> {
    if Truthy(s.originalIconSvg) then SvgAttributes.GetViewBox(viewBoxAttr(s.originalIconSvg.value))
    else Some(CreateDefault())
  }

  /** `(vb?.y ?? 0) + (vb?.height ?? 100) * 0.95`. */
  function TaglineY(vb: Option<ViewBox>): real {
    (if vb.Some? then vb.value.y else 0.0) + (if vb.Some? then vb.value.height else 100.0) * TaglineRatio
  }

  /** A tagline created from nothing is a fresh default tagline at 95% of
      the template's ViewBox, with the default ViewBox standing in for a
      missing one. */
  lemma EnabledTaglinePosition(s: Store, viewBoxAttr: string -> Option<string>)
    requires s.tagline.None?
    ensures Truthy(s.originalIconSvg) ==>
              SetTaglineEnabled(s, true, viewBoxAttr).tagline
              == Some(InitialTextProps(TaglineText, PlacedY(TemplateViewBox(s.originalIconSvg.value, viewBoxAttr), TaglineRatio)))
    ensures !Truthy(s.originalIconSvg) ==>
              SetTaglineEnabled(s, true, viewBoxAttr).tagline == Some(InitialTextProps(TaglineText, 95.0))
  {
    var vb := OriginalViewBox(s, viewBoxAttr);
    TaglineFallback(vb);
    if Truthy(s.originalIconSvg) {
      assert TemplateViewBox(s.originalIconSvg.value, viewBoxAttr) == vb.GetOr(CreateDefault());
    }
  }

  /** The fallbacks for a missing ViewBox are those of the default
      ViewBox, so the tagline sits at 95% of the ViewBox in use. */
  lemma TaglineFallback(vb: Option<ViewBox>)
    ensures TaglineY(vb) == PlacedY(vb.GetOr(CreateDefault()), TaglineRatio)
  {
  }

  /** Enabling or disabling twice is the same as once. */
  lemma SetTaglineEnabledIdempotent(s: Store, enabled: bool, viewBoxAttr: string -> Option<string>)
    ensures var once := SetTaglineEnabled(s, enabled, viewBoxAttr);
            SetTaglineEnabled(once, enabled, viewBoxAttr) == once
  {
  }

  // ---------------------------------------------------------------------
  // Template selection
  // ---------------------------------------------------------------------

  /** `templates.find(t => t.id === id)`: the first template with the id. */
  function FindTemplate(ts: seq<Template>, id: string): (r: Option<Template>)
    ensures r.None? <==> forall i :: 0 <= i < |ts| ==> ts[i].id != id
    ensures r.Some? ==> exists i :: 0 <= i < |ts| && ts[i] == r.value && r.value.id == id
                          && forall j :: 0 <= j < i ==> ts[j].id != id
  {
    if |ts| == 0 then None
    else if ts[0].id == id then Some(ts[0])
    else
      var r := FindTemplate(ts[1..], id);
      if r.Some? then
        var i :| 0 <= i < |ts[1..]| && ts[1..][i] == r.value && r.value.id == id
                 && forall j :: 0 <= j < i ==> ts[1..][j].id != id;
        assert ts[i + 1] == r.value;
        assert forall j :: 1 <= j < i + 1 ==> ts[j].id == ts[1..][j - 1].id;
        r
      else
        assert forall i :: 1 <= i < |ts| ==> ts[i] == ts[1..][i - 1];
        r
  }

  /** `selectTemplate`: an unknown id changes nothing. Otherwise the
      template becomes the original SVG, its extracted properties and the
      SVG rendered from them are stored, the editor opens with no element
      selected, the company name is reset to 85% of the template's ViewBox
      height, and an existing tagline is reset to 95%. */
  function SelectTemplate(
    s: Store, id: string,
    extract: string -> map<string, Props>,
    applyProps: (string, map<string, Props>) -> string,
    viewBoxAttr: string -> Option<string>): (r: Store)
    ensures FindTemplate(s.templates, id).None? ==> r == s
    ensures FindTemplate(s.templates, id).Some? ==>
              && r.screen == Editor && r.selectedElementId.None?
              && r.selectedTemplateId == Some(id)
              && r.originalIconSvg == Some(FindTemplate(s.templates, id).value.svgContent)
              && (r.tagline.Some? <==> s.tagline.Some?)
              && r.templates == s.templates
              && r.elementsProps == extract(FindTemplate(s.templates, id).value.svgContent)
              && r.editedIconSvg == Some(applyProps(FindTemplate(s.templates, id).value.svgContent, r.elementsProps))
  {
    match FindTemplate(s.templates, id)
    case None => s
    case Some(t) =>
      var props := extract(t.svgContent);
      var vb := TemplateViewBox(t.svgContent, viewBoxAttr);
      s.(selectedTemplateId := Some(id),
         originalIconSvg := Some(t.svgContent),
         elementsProps := props,
         editedIconSvg := Some(applyProps(t.svgContent, props)),
         screen := Editor,
         selectedElementId := None,
         companyName := InitialTextProps(CompanyNameText, PlacedY(vb, CompanyNameRatio)),
         tagline := if s.tagline.Some? then Some(InitialTextProps(TaglineText, PlacedY(vb, TaglineRatio))) else None)
  }

  /** The company name after a selection sits at 85% of the template's
      ViewBox, inside it when that ViewBox has positive height. */
  lemma SelectTemplatePlacesText(
    s: Store, id: string,
    extract: string -> map<string, Props>,
    applyProps: (string, map<string, Props>) -> string,
    viewBoxAttr: string -> Option<string>)
    requires FindTemplate(s.templates, id).Some?
    ensures var t := FindTemplate(s.templates, id).value;
            var vb := TemplateViewBox(t.svgContent, viewBoxAttr);
            var r := SelectTemplate(s, id, extract, applyProps, viewBoxAttr);
            && r.companyName.y == PlacedY(vb, CompanyNameRatio)
            && r.companyName.content == CompanyNameText
            && (vb.height > 0.0 ==> vb.y < r.companyName.y < vb.y + vb.height)
            && (r.tagline.Some? ==> r.companyName.y < r.tagline.value.y || vb.height <= 0.0)
  {
    var t := FindTemplate(s.templates, id).value;
    var vb := TemplateViewBox(t.svgContent, viewBoxAttr);
    if vb.height > 0.0 {
      PlacementInside(vb);
    }
  }

  /** Selecting with the tagline off and then switching it on places the
      tagline where selecting with it on would have: both read the same
      ViewBox of the same SVG. */
  lemma SelectThenEnableTagline(
    s: Store, id: string, previous: TextProps,
    extract: string -> map<string, Props>,
    applyProps: (string, map<string, Props>) -> string,
    viewBoxAttr: string -> Option<string>)
    requires s.tagline.None?
    requires FindTemplate(s.templates, id).Some? && FindTemplate(s.templates, id).value.svgContent != ""
    ensures SetTaglineEnabled(SelectTemplate(s, id, extract, applyProps, viewBoxAttr), true, viewBoxAttr).tagline
            == SelectTemplate(s.(tagline := Some(previous)), id, extract, applyProps, viewBoxAttr).tagline
  {
    var t := FindTemplate(s.templates, id).value;
    var vb := TemplateViewBox(t.svgContent, viewBoxAttr);
    var sel := SelectTemplate(s, id, extract, applyProps, viewBoxAttr);
    assert sel.tagline.None? && sel.originalIconSvg == Some(t.svgContent);
    EnabledTaglinePosition(sel, viewBoxAttr);
    var other := SelectTemplate(s.(tagline := Some(previous)), id, extract, applyProps, viewBoxAttr);
    assert s.(tagline := Some(previous)).templates == s.templates;
    assert other.tagline == Some(InitialTextProps(TaglineText, PlacedY(vb, TaglineRatio)));
  }
}
