/** The extractor (`getMeta`, `filterAttributes`): turns the ordered children
    of the document head into the unified record list, one record per element
    that has an applicable mapping. */
module Extract {
  import opened Wrappers
  import opened JsString
  import opened MetaTypes
  import opened MetaConfig

  /** `mapper.keyAttribute == null || mapper.keyAttribute in element.attributes` */
  predicate Applies(m: AttributeConfig, e: Element) {
    m.keyAttribute.None? || HasAttribute(e, m.keyAttribute.value)
  }

  /** The position of the first mapping that applies, when there is one. */
  function FirstApplicable(ms: seq<AttributeConfig>, e: Element): (r: Option<nat>)
    ensures r.Some? ==> r.value < |ms| && Applies(ms[r.value], e)
    ensures r.Some? ==> forall j :: 0 <= j < r.value ==> !Applies(ms[j], e)
    ensures r.None? ==> forall j :: 0 <= j < |ms| ==> !Applies(ms[j], e)
  {
    if ms == [] then None
    else if Applies(ms[0], e) then Some(0)
    else match FirstApplicable(ms[1..], e)
      case None => None
      case Some(k) => Some(k + 1)
  }

  /** The record key, per the mapping's `keyNameFrom`. */
  function KeyOf(m: AttributeConfig, e: Element): string
    requires KeyReady(m) && Applies(m, e)
  {
    match m.keyNameFrom
    case TagName => ToLower(e.tagName)
    case TagValue => e.text
    case AttrName => FindAttr(e.attributes, m.keyAttribute.value).value.name
    case AttrValue => FindAttr(e.attributes, m.keyAttribute.value).value.value
  }

  /** The record value: the value attribute when the mapping names one and the
      element carries it, otherwise the text content. */
  function ValueOf(m: AttributeConfig, e: Element): string {
    if m.valueAttribute.Some? && HasAttribute(e, m.valueAttribute.value)
    then FindAttr(e.attributes, m.valueAttribute.value).value.value
    else e.text
  }

  function OptionList(o: Option<string>): seq<string> {
    match o
    case Some(s) => [s]
    case None => []
  }

  /** `[mapper.keyAttribute!, mapper.valueAttribute!]`; a null entry equals no
      attribute name, so only the names present matter. */
  function Exclusions(m: AttributeConfig): seq<string> {
    OptionList(m.keyAttribute) + OptionList(m.valueAttribute)
  }

  /** The attributes whose names are not excluded, in their original order. */
  function Filtered(attrs: seq<Attr>, exclude: seq<string>): seq<Attr>
    decreases |attrs|
  {
    if attrs == [] then []
    else
      var last := attrs[|attrs| - 1];
      Filtered(attrs[..|attrs| - 1], exclude) + (if last.name in exclude then [] else [last])
  }

  /** `filterAttributes(attributes, exclude)` */
  method FilterAttributes(attrs: seq<Attr>, exclude: seq<string>) returns (result: seq<Attr>)
    ensures result == Filtered(attrs, exclude)
  {
    result := [];
    for i := 0 to |attrs|
      invariant result == Filtered(attrs[..i], exclude)
    {
      assert attrs[..i + 1][..i] == attrs[..i];
      if attrs[i].name !in exclude {
        result := result + [attrs[i]];
      }
    }
    assert attrs[..|attrs|] == attrs;
  }

  lemma {:induction false} FilteredMembers(attrs: seq<Attr>, exclude: seq<string>)
    ensures forall a :: a in Filtered(attrs, exclude) <==> a in attrs && a.name !in exclude
  {
    if attrs != [] {
      FilteredMembers(attrs[..|attrs| - 1], exclude);
      assert attrs == attrs[..|attrs| - 1] + [attrs[|attrs| - 1]];
    }
  }

  /** Filtering works attribute by attribute, so it keeps the original order. */
  lemma {:induction false} FilteredAppend(a: seq<Attr>, b: seq<Attr>, exclude: seq<string>)
    ensures Filtered(a + b, exclude) == Filtered(a, exclude) + Filtered(b, exclude)
    decreases |b|
  {
    if b == [] {
      assert a + b == a;
    } else {
      var b' := b[..|b| - 1];
      assert (a + b)[..|a + b| - 1] == a + b';
      FilteredAppend(a, b', exclude);
    }
  }

  /** Without exclusions every attribute is kept. */
  lemma {:induction false} FilteredNothingExcluded(attrs: seq<Attr>)
    ensures Filtered(attrs, []) == attrs
  {
    if attrs != [] {
      FilteredNothingExcluded(attrs[..|attrs| - 1]);
    }
  }

  /** `element.getAttribute('href')`: the raw, unresolved attribute. */
  function RawHref(e: Element): Option<string> {
    GetAttribute(e.attributes, "href")
  }

  /** The record for the element at position `idx`, with `link` computing the
      `valueLink` field (the three extractors differ only there). */
  function RecordWith(e: Element, idx: nat, link: Element -> Option<string>): Option<MetaItem> {
    var ms := MappersFor(e.tagName);
    match FirstApplicable(ms, e)
    case None => None
    case Some(k) =>
      Some(MetaItem(idx, ToLower(e.tagName), KeyOf(ms[k], e), ValueOf(ms[k], e), link(e),
                    Filtered(e.attributes, Exclusions(ms[k]))))
  }

  function Emit(r: Option<MetaItem>): seq<MetaItem> {
    match r
    case Some(item) => [item]
    case None => []
  }

  /** The records of the elements in order; `rec` builds the record of one
      element from the element and its position. */
  function Collect(es: seq<Element>, rec: (Element, nat) -> Option<MetaItem>): seq<MetaItem>
    decreases |es|
  {
    if es == [] then []
    else Collect(es[..|es| - 1], rec) + Emit(rec(es[|es| - 1], |es| - 1))
  }

  /** The record builder of an extractor with link function `link`. */
  function Builder(link: Element -> Option<string>): (Element, nat) -> Option<MetaItem> {
    (e: Element, i: nat) => RecordWith(e, i, link)
  }

  /** The record list for the elements, each numbered by its own position. */
  function MetaOfWith(es: seq<Element>, link: Element -> Option<string>): seq<MetaItem> {
    Collect(es, Builder(link))
  }

  /** The record list grows by the record of the last element, if any. */
  lemma {:induction false} MetaOfWithSnoc(es: seq<Element>, link: Element -> Option<string>)
    requires es != []
    ensures MetaOfWith(es, link) == MetaOfWith(es[..|es| - 1], link) + Emit(RecordWith(es[|es| - 1], |es| - 1, link))
  {
    var n, b := |es| - 1, Builder(link);
    assert MetaOfWith(es, link) == Collect(es[..n], b) + Emit(b(es[n], n));
    assert b(es[n], n) == RecordWith(es[n], n, link);
  }

  /** What `getMeta` returns: records whose `valueLink` is the raw href. */
  function MetaOf(es: seq<Element>): seq<MetaItem> {
    MetaOfWith(es, RawHref)
  }

  /** `getMeta(documentHead)`, over the head's children in document order. */
  method GetMeta(elements: seq<Element>) returns (meta: seq<MetaItem>)
    ensures meta == MetaOf(elements)
  {
    meta := [];
    for idx := 0 to |elements|
      invariant meta == MetaOf(elements[..idx])
    {
      assert elements[..idx + 1][..idx] == elements[..idx];
      MetaOfWithSnoc(elements[..idx + 1], RawHref);
      var item := MapElement(elements[idx], idx);
      meta := meta + Emit(item);
    }
    assert elements[..|elements|] == elements;
  }

  /** The body of the element loop of `getMeta`: try the tag's mappers in
      order, build the record from the first that applies, then stop. */
  method MapElement(element: Element, idx: nat) returns (item: Option<MetaItem>)
    ensures item == RecordWith(element, idx, RawHref)
  {
    var attributeMappers := MappersFor(element.tagName);
    var j := 0;
    while j < |attributeMappers|
      invariant j <= |attributeMappers|
      invariant forall k :: 0 <= k < j ==> !Applies(attributeMappers[k], element)
    {
      var mapper := attributeMappers[j];
      if mapper.keyAttribute.None? || HasAttribute(element, mapper.keyAttribute.value) {
        var tagName := ToLower(element.tagName);
        var key: string;
        match mapper.keyNameFrom {
          case TagName => key := tagName;
          case TagValue => key := element.text;
          case AttrName => key := FindAttr(element.attributes, mapper.keyAttribute.value).value.name;
          case AttrValue => key := FindAttr(element.attributes, mapper.keyAttribute.value).value.value;
        }
        var value: string;
        if mapper.valueAttribute.Some? && HasAttribute(element, mapper.valueAttribute.value) {
          value := GetAttribute(element.attributes, mapper.valueAttribute.value).value;
        } else {
          value := element.text;
        }
        var attributes := FilterAttributes(element.attributes, OptionList(mapper.keyAttribute) + OptionList(mapper.valueAttribute));
        FirstApplicableAt(attributeMappers, element, j);
        return Some(MetaItem(idx, tagName, key, value, GetAttribute(element.attributes, "href"), attributes));
      }
      j := j + 1;
    }
    return None;
  }

  /** The first applicable mapping is found by a left-to-right scan. */
  lemma {:induction false} FirstApplicableAt(ms: seq<AttributeConfig>, e: Element, j: nat)
    requires j < |ms| && Applies(ms[j], e)
    requires forall k :: 0 <= k < j ==> !Applies(ms[k], e)
    ensures FirstApplicable(ms, e) == Some(j)
  {
    if j > 0 {
      FirstApplicableAt(ms[1..], e, j - 1);
    }
  }

  /** A builder numbers each record by the position it is given. */
  ghost predicate Numbered(rec: (Element, nat) -> Option<MetaItem>) {
    forall e: Element, i: nat :: rec(e, i).Some? ==> rec(e, i).value.idx == i
  }

  lemma {:induction false} BuilderNumbered(link: Element -> Option<string>)
    ensures Numbered(Builder(link))
  {
  }

  /** Some record sits at element position `i`. */
  ghost predicate HasRecordAt(r: seq<MetaItem>, i: nat) {
    exists k :: 0 <= k < |r| && r[k].idx == i
  }

  lemma {:induction false} HasRecordAtAppend(a: seq<MetaItem>, b: seq<MetaItem>, i: nat)
    ensures HasRecordAt(a + b, i) <==> HasRecordAt(a, i) || HasRecordAt(b, i)
  {
    if HasRecordAt(a + b, i) {
      var k :| 0 <= k < |a + b| && (a + b)[k].idx == i;
      if k >= |a| {
        assert b[k - |a|].idx == i;
      }
    }
    if HasRecordAt(b, i) {
      var k :| 0 <= k < |b| && b[k].idx == i;
      assert (a + b)[|a| + k].idx == i;
    }
    if HasRecordAt(a, i) {
      var k :| 0 <= k < |a| && a[k].idx == i;
      assert (a + b)[k].idx == i;
    }
  }

  /** With a numbering builder, each record names the element it came from by
      position: positions are strictly increasing, each is an element index,
      and the record is the one the builder makes for that element there. */
  lemma {:induction false} CollectRecords(es: seq<Element>, rec: (Element, nat) -> Option<MetaItem>)
    requires Numbered(rec)
    ensures |Collect(es, rec)| <= |es|
    ensures forall k :: 0 <= k < |Collect(es, rec)| ==>
      var r := Collect(es, rec)[k];
      r.idx < |es| && rec(es[r.idx], r.idx) == Some(r)
    ensures forall a, b :: 0 <= a < b < |Collect(es, rec)| ==> Collect(es, rec)[a].idx < Collect(es, rec)[b].idx
  {
    if es != [] {
      var n := |es| - 1;
      var init := es[..n];
      CollectRecords(init, rec);
      var ri, last := Collect(init, rec), Emit(rec(es[n], n));
      assert Collect(es, rec) == ri + last;
      forall k | 0 <= k < |ri|
        ensures ri[k].idx < n && es[ri[k].idx] == init[ri[k].idx]
      {
      }
      if last != [] {
        assert last[0].idx == n;
      }
    }
  }

  /** With a numbering builder, an element contributes a record exactly when
      the builder makes one for it. */
  lemma {:induction false} CollectComplete(es: seq<Element>, rec: (Element, nat) -> Option<MetaItem>, i: nat)
    requires Numbered(rec) && i < |es|
    ensures HasRecordAt(Collect(es, rec), i) <==> rec(es[i], i).Some?
  {
    var n := |es| - 1;
    var init := es[..n];
    var ri, last := Collect(init, rec), Emit(rec(es[n], n));
    assert Collect(es, rec) == ri + last;
    HasRecordAtAppend(ri, last, i);
    if i == n {
      CollectRecords(init, rec);
      assert !HasRecordAt(ri, i);
      if rec(es[i], i).Some? {
        assert last[0].idx == i;
      }
    } else {
      CollectComplete(init, rec, i);
      assert init[i] == es[i];
      assert !HasRecordAt(last, i);
    }
  }

  /** Two builders whose records differ at most in `valueLink`. */
  ghost predicate SameButLink(r1: (Element, nat) -> Option<MetaItem>, r2: (Element, nat) -> Option<MetaItem>) {
    forall e: Element, i: nat :: r1(e, i).Some? == r2(e, i).Some? &&
      (r1(e, i).Some? ==> r1(e, i).value.(valueLink := None) == r2(e, i).value.(valueLink := None))
  }

  lemma {:induction false} CollectSameButLink(es: seq<Element>, r1: (Element, nat) -> Option<MetaItem>, r2: (Element, nat) -> Option<MetaItem>)
    requires SameButLink(r1, r2)
    ensures |Collect(es, r1)| == |Collect(es, r2)|
    ensures forall k :: 0 <= k < |Collect(es, r1)| ==> Collect(es, r1)[k].(valueLink := None) == Collect(es, r2)[k].(valueLink := None)
  {
    if es != [] {
      var n := |es| - 1;
      CollectSameButLink(es[..n], r1, r2);
      assert Collect(es, r1) == Collect(es[..n], r1) + Emit(r1(es[n], n));
      assert Collect(es, r2) == Collect(es[..n], r2) + Emit(r2(es[n], n));
    }
  }

  lemma {:induction false} BuildersSameButLink(l1: Element -> Option<string>, l2: Element -> Option<string>)
    ensures SameButLink(Builder(l1), Builder(l2))
  {
  }

  /** Each record names the element it came from by position: positions are
      strictly increasing, each is an element index, and the record is the one
      that element yields there. So every element yields at most one record,
      and a skipped element still uses up its position. */
  lemma {:induction false} MetaOfRecords(es: seq<Element>, link: Element -> Option<string>)
    ensures |MetaOfWith(es, link)| <= |es|
    ensures forall k :: 0 <= k < |MetaOfWith(es, link)| ==>
      var r := MetaOfWith(es, link)[k];
      r.idx < |es| && RecordWith(es[r.idx], r.idx, link) == Some(r)
    ensures forall a, b :: 0 <= a < b < |MetaOfWith(es, link)| ==>
      MetaOfWith(es, link)[a].idx < MetaOfWith(es, link)[b].idx
  {
    BuilderNumbered(link);
    CollectRecords(es, Builder(link));
  }

  /** An element contributes a record exactly when it has an applicable mapping. */
  lemma {:induction false} MetaOfComplete(es: seq<Element>, link: Element -> Option<string>, i: nat)
    requires i < |es|
    ensures (exists k :: 0 <= k < |MetaOfWith(es, link)| && MetaOfWith(es, link)[k].idx == i)
        <==> RecordWith(es[i], i, link).Some?
  {
    var r := MetaOfWith(es, link);
    BuilderNumbered(link);
    CollectComplete(es, Builder(link), i);
    assert r == Collect(es, Builder(link));
    assert Builder(link)(es[i], i) == RecordWith(es[i], i, link);
    assert HasRecordAt(r, i) <==> exists k :: 0 <= k < |r| && r[k].idx == i;
  }

  /** Elements of an unmapped tag (style, script, noscript, ...) yield nothing. */
  lemma {:induction false} UnmappedTagYieldsNothing(e: Element, idx: nat, link: Element -> Option<string>)
    requires e.tagName !in Config
    ensures RecordWith(e, idx, link) == None
  {
  }

  /** A title is keyed by its tag name and valued by its text; no attribute is consumed. */
  lemma {:induction false} TitleRecord(e: Element, idx: nat, link: Element -> Option<string>)
    requires e.tagName == "TITLE"
    ensures RecordWith(e, idx, link) == Some(MetaItem(idx, "title", "title", e.text, link(e), e.attributes))
  {
    TitleTag(e);
    FilteredNothingExcluded(e.attributes);
  }

  lemma {:induction false} TitleTag(e: Element)
    requires e.tagName == "TITLE"
    ensures ToLower(e.tagName) == "title"
    ensures MappersFor(e.tagName) == [AttributeConfig(TagName, None, None)]
    ensures FirstApplicable(MappersFor(e.tagName), e) == Some(0)
    ensures Exclusions(MappersFor(e.tagName)[0]) == []
  {
  }

  /** A base element is keyed "base" and valued by its href, or by its text when it has none. */
  lemma {:induction false} BaseRecord(e: Element, idx: nat, link: Element -> Option<string>)
    requires e.tagName == "BASE"
    ensures RecordWith(e, idx, link) == Some(MetaItem(idx, "base", "base",
      GetAttribute(e.attributes, "href").GetOr(e.text), link(e), Filtered(e.attributes, ["href"])))
  {
    var m := AttributeConfig(TagName, None, Some("href"));
    assert MappersFor(e.tagName) == [m];
    assert FirstApplicable([m], e) == Some(0);
    assert ToLower("BASE") == "base";
    assert Exclusions(m) == ["href"];
  }

  /** A link element is keyed by its rel value and valued by its href; without
      rel it yields nothing. */
  lemma {:induction false} LinkRecord(e: Element, idx: nat, link: Element -> Option<string>)
    requires e.tagName == "LINK"
    ensures !HasAttribute(e, "rel") ==> RecordWith(e, idx, link) == None
    ensures HasAttribute(e, "rel") ==> RecordWith(e, idx, link) == Some(MetaItem(idx, "link",
      GetAttribute(e.attributes, "rel").value, GetAttribute(e.attributes, "href").GetOr(e.text), link(e),
      Filtered(e.attributes, ["rel", "href"])))
  {
    assert MappersFor(e.tagName) == LinkMappers;
    assert ToLower(e.tagName) == "link";
    if HasAttribute(e, "rel") {
      FirstApplicableAt(LinkMappers, e, 0);
      AttrValueRecord(e, idx, link, 0, "rel", "href");
    } else {
      assert !Applies(LinkMappers[0], e);
    }
  }

  /** A meta element is keyed by the first of charset (the attribute's name),
      name, property and http-equiv (their values) that it carries, so a meta
      with both name and property is keyed by name; with none of them it yields
      nothing. */
  lemma {:induction false} MetaRecord(e: Element, idx: nat, link: Element -> Option<string>)
    requires e.tagName == "META"
    ensures RecordWith(e, idx, link) ==
      if HasAttribute(e, "charset") then
        Some(MetaItem(idx, "meta", "charset", GetAttribute(e.attributes, "charset").value, link(e),
          Filtered(e.attributes, ["charset", "charset"])))
      else if HasAttribute(e, "name") then
        Some(MetaItem(idx, "meta", GetAttribute(e.attributes, "name").value,
          GetAttribute(e.attributes, "content").GetOr(e.text), link(e), Filtered(e.attributes, ["name", "content"])))
      else if HasAttribute(e, "property") then
        Some(MetaItem(idx, "meta", GetAttribute(e.attributes, "property").value,
          GetAttribute(e.attributes, "content").GetOr(e.text), link(e), Filtered(e.attributes, ["property", "content"])))
      else if HasAttribute(e, "http-equiv") then
        Some(MetaItem(idx, "meta", GetAttribute(e.attributes, "http-equiv").value,
          GetAttribute(e.attributes, "content").GetOr(e.text), link(e), Filtered(e.attributes, ["http-equiv", "content"])))
      else None
  {
    MetaTag(e);
    if HasAttribute(e, "charset") {
      MetaCharsetCase(e, idx, link);
    } else if HasAttribute(e, "name") {
      MetaNameCase(e, idx, link);
    } else if HasAttribute(e, "property") {
      MetaPropertyCase(e, idx, link);
    } else if HasAttribute(e, "http-equiv") {
      MetaHttpEquivCase(e, idx, link);
    } else {
      MetaNoneCase(e, idx, link);
    }
  }

  lemma {:induction false} MetaNameCase(e: Element, idx: nat, link: Element -> Option<string>)
    requires e.tagName == "META" && !HasAttribute(e, "charset") && HasAttribute(e, "name")
    ensures RecordWith(e, idx, link) == Some(MetaItem(idx, "meta", GetAttribute(e.attributes, "name").value,
      GetAttribute(e.attributes, "content").GetOr(e.text), link(e), Filtered(e.attributes, ["name", "content"])))
  {
    MetaTag(e);
    FirstApplicableAt(MetaMappers, e, 1);
    AttrValueRecord(e, idx, link, 1, "name", "content");
  }

  lemma {:induction false} MetaPropertyCase(e: Element, idx: nat, link: Element -> Option<string>)
    requires e.tagName == "META" && !HasAttribute(e, "charset") && !HasAttribute(e, "name") && HasAttribute(e, "property")
    ensures RecordWith(e, idx, link) == Some(MetaItem(idx, "meta", GetAttribute(e.attributes, "property").value,
      GetAttribute(e.attributes, "content").GetOr(e.text), link(e), Filtered(e.attributes, ["property", "content"])))
  {
    MetaTag(e);
    FirstApplicableAt(MetaMappers, e, 2);
    AttrValueRecord(e, idx, link, 2, "property", "content");
  }

  lemma {:induction false} MetaHttpEquivCase(e: Element, idx: nat, link: Element -> Option<string>)
    requires e.tagName == "META" && !HasAttribute(e, "charset") && !HasAttribute(e, "name") && !HasAttribute(e, "property")
    requires HasAttribute(e, "http-equiv")
    ensures RecordWith(e, idx, link) == Some(MetaItem(idx, "meta", GetAttribute(e.attributes, "http-equiv").value,
      GetAttribute(e.attributes, "content").GetOr(e.text), link(e), Filtered(e.attributes, ["http-equiv", "content"])))
  {
    MetaTag(e);
    FirstApplicableAt(MetaMappers, e, 3);
    AttrValueRecord(e, idx, link, 3, "http-equiv", "content");
  }

  lemma {:induction false} MetaNoneCase(e: Element, idx: nat, link: Element -> Option<string>)
    requires e.tagName == "META"
    requires !HasAttribute(e, "charset") && !HasAttribute(e, "name") && !HasAttribute(e, "property") && !HasAttribute(e, "http-equiv")
    ensures RecordWith(e, idx, link) == None
  {
    MetaTag(e);
    assert forall k :: 0 <= k < |MetaMappers| ==> !Applies(MetaMappers[k], e);
  }

  lemma {:induction false} MetaTag(e: Element)
    requires e.tagName == "META"
    ensures ToLower(e.tagName) == "meta"
    ensures MappersFor(e.tagName) == MetaMappers
  {
  }

  /** The record an element yields through the `k`-th mapping of its tag. */
  lemma {:induction false} RecordOfMapper(e: Element, idx: nat, link: Element -> Option<string>, k: nat, m: AttributeConfig)
    requires k < |MappersFor(e.tagName)| && FirstApplicable(MappersFor(e.tagName), e) == Some(k)
    requires m == MappersFor(e.tagName)[k]
    ensures KeyReady(m) && Applies(m, e)
    ensures RecordWith(e, idx, link) == Some(MetaItem(idx, ToLower(e.tagName), KeyOf(m, e), ValueOf(m, e), link(e),
        Filtered(e.attributes, Exclusions(m))))
  {
  }

  /** A mapping with a value attribute reads it, falling back to the text. */
  lemma {:induction false} ValueOfAttribute(m: AttributeConfig, e: Element)
    requires m.valueAttribute.Some?
    ensures ValueOf(m, e) == GetAttribute(e.attributes, m.valueAttribute.value).GetOr(e.text)
  {
  }

  lemma {:induction false} MetaCharsetCase(e: Element, idx: nat, link: Element -> Option<string>)
    requires e.tagName == "META" && HasAttribute(e, "charset")
    ensures RecordWith(e, idx, link) == Some(MetaItem(idx, "meta",
      "charset", GetAttribute(e.attributes, "charset").value, link(e), Filtered(e.attributes, ["charset", "charset"])))
  {
    MetaTag(e);
    var m := AttributeConfig(AttrName, Some("charset"), Some("charset"));
    FirstApplicableAt(MetaMappers, e, 0);
    RecordOfMapper(e, idx, link, 0, m);
    assert KeyOf(m, e) == "charset";
    ValueOfAttribute(m, e);
    assert Exclusions(m) == ["charset", "charset"];
  }

  /** A mapping keyed by an attribute's value and valued by another
      attribute: the name, property and http-equiv mappings of meta and the
      rel mapping of link. */
  lemma {:induction false} AttrValueRecord(e: Element, idx: nat, link: Element -> Option<string>, k: nat, key: string, val: string)
    requires k < |MappersFor(e.tagName)| && FirstApplicable(MappersFor(e.tagName), e) == Some(k)
    requires MappersFor(e.tagName)[k] == AttributeConfig(AttrValue, Some(key), Some(val))
    ensures HasAttribute(e, key)
    ensures RecordWith(e, idx, link) == Some(MetaItem(idx, ToLower(e.tagName),
        GetAttribute(e.attributes, key).value, GetAttribute(e.attributes, val).GetOr(e.text), link(e),
        Filtered(e.attributes, [key, val])))
  {
    var m := AttributeConfig(AttrValue, Some(key), Some(val));
    RecordOfMapper(e, idx, link, k, m);
    KeyOfAttribute(m, e);
    ValueOfAttribute(m, e);
    assert Exclusions(m) == [key, val];
  }

  /** A mapping keyed by an attribute's value reads that attribute. */
  lemma {:induction false} KeyOfAttribute(m: AttributeConfig, e: Element)
    requires m.keyNameFrom == AttrValue && m.keyAttribute.Some? && Applies(m, e)
    ensures KeyOf(m, e) == GetAttribute(e.attributes, m.keyAttribute.value).value
  {
  }

  /** The link function decides `valueLink` and nothing else: two extractors
      that differ only there yield the same records otherwise. */
  lemma {:induction false} LinkOnlyChangesValueLink(es: seq<Element>, l1: Element -> Option<string>, l2: Element -> Option<string>)
    ensures |MetaOfWith(es, l1)| == |MetaOfWith(es, l2)|
    ensures forall k :: 0 <= k < |MetaOfWith(es, l1)| ==>
      MetaOfWith(es, l1)[k].(valueLink := None) == MetaOfWith(es, l2)[k].(valueLink := None)
    ensures forall k :: 0 <= k < |MetaOfWith(es, l2)| ==>
      MetaOfWith(es, l2)[k].idx < |es| && MetaOfWith(es, l2)[k].valueLink == l2(es[MetaOfWith(es, l2)[k].idx])
  {
    BuildersSameButLink(l1, l2);
    CollectSameButLink(es, Builder(l1), Builder(l2));
    MetaOfRecords(es, l2);
  }

  /** `valueLink` as the extractor's tests expect it: the href resolved
      against the document's base URL (`resolve` stands for that resolution),
      and null without an href. */
  function ResolvedHref(resolve: Element -> string): Element -> Option<string> {
    e => if HasAttribute(e, "href") then Some(resolve(e)) else None
  }

  function ResolvedMetaOf(es: seq<Element>, resolve: Element -> string): seq<MetaItem> {
    MetaOfWith(es, ResolvedHref(resolve))
  }

  /** The records with resolved links: every record whose element has an href
      links to the resolved URL, the others link nowhere, and all other fields
      are those of `getMeta`. */
  lemma {:induction false} ResolvedLinks(es: seq<Element>, resolve: Element -> string)
    ensures |ResolvedMetaOf(es, resolve)| == |MetaOf(es)|
    ensures forall k :: 0 <= k < |MetaOf(es)| ==>
      ResolvedMetaOf(es, resolve)[k].(valueLink := None) == MetaOf(es)[k].(valueLink := None)
    ensures forall r :: r in ResolvedMetaOf(es, resolve) ==>
      r.idx < |es| &&
      (r.valueLink.Some? <==> HasAttribute(es[r.idx], "href")) &&
      (r.valueLink.Some? ==> r.valueLink.value == resolve(es[r.idx]))
  {
    LinkOnlyChangesValueLink(es, RawHref, ResolvedHref(resolve));
    MetaOfRecords(es, ResolvedHref(resolve));
    var rs := ResolvedMetaOf(es, resolve);
    forall r | r in rs
      ensures r.idx < |es| && (r.valueLink.Some? <==> HasAttribute(es[r.idx], "href"))
    {
      var k :| 0 <= k < |rs| && rs[k] == r;
    }
  }

  /** The base-element test: for `<base href="/"/>` `getMeta` links to the raw
      "/", where the test expects the document's base URL, whenever that URL is
      not "/" itself. */
  lemma {:induction false} RawHrefDiffersFromResolved(resolve: Element -> string)
    requires resolve(Element("BASE", [Attr("href", "/")], "")) == "http://localhost:3000/"
    ensures MetaOf([Element("BASE", [Attr("href", "/")], "")])[0].valueLink == Some("/")
    ensures ResolvedMetaOf([Element("BASE", [Attr("href", "/")], "")], resolve)[0].valueLink == Some("http://localhost:3000/")
  {
    var e := Element("BASE", [Attr("href", "/")], "");
    BaseRecord(e, 0, RawHref);
    BaseRecord(e, 0, ResolvedHref(resolve));
    assert [e][..0] == [];
  }
}
