/** The legacy extractor of the injected devtools script (`getPageMeta` in the
    old JavaScript code base). Its mapping table is a private copy of the shared
    one, entry for entry, so the shared table stands for it. It differs from
    `getMeta` in three ways: it visits the selector matches, it reads the value
    attribute without checking that it is there, and `valueLink` is the
    element's `href` property, which only link and base elements have and which
    the browser resolves against the document's base URL. */
module Devtools {
  import opened Wrappers
  import opened JsString
  import opened MetaTypes
  import opened MetaConfig
  import opened Extract
  import opened ContentScript

  /** `headTags[i].href`: the resolved URL for link and base elements,
      `undefined` for title and meta. `resolve` stands for the browser's URL
      resolution. */
  function LegacyHref(resolve: Element -> string, e: Element): Option<string> {
    if e.tagName == "LINK" || e.tagName == "BASE" then Some(resolve(e)) else None
  }

  function HrefProperty(resolve: Element -> string): Element -> Option<string> {
    e => LegacyHref(resolve, e)
  }

  /** What the legacy loop needs of an element to run without a TypeError:
      its tag is in the table, and when the first applicable mapping names a
      value attribute the element carries it. */
  predicate LegacyReady(e: Element) {
    SelectorMatch(e) &&
    var ms := MappersFor(e.tagName);
    match FirstApplicable(ms, e)
    case None => true
    case Some(k) => ms[k].valueAttribute.Some? ==> HasAttribute(e, ms[k].valueAttribute.value)
  }

  /** The legacy `getPageMeta()` over the selector matches in document order. */
  method GetPageMeta(headTags: seq<Element>, resolve: Element -> string) returns (result: seq<MetaItem>)
    requires forall i :: 0 <= i < |headTags| ==> LegacyReady(headTags[i])
    ensures result == MetaOfWith(headTags, HrefProperty(resolve))
  {
    result := [];
    var i := 0;
    while i < |headTags|
      invariant i <= |headTags|
      invariant result == MetaOfWith(headTags[..i], HrefProperty(resolve))
    {
      assert headTags[..i + 1][..i] == headTags[..i];
      MetaOfWithSnoc(headTags[..i + 1], HrefProperty(resolve));
      var item := LegacyItem(headTags[i], i, resolve);
      result := result + Emit(item);
      i := i + 1;
    }
    assert headTags[..|headTags|] == headTags;
  }

  /** The inner `j` loop: the first applicable mapping builds the item field
      by field, then the loop breaks. */
  method LegacyItem(e: Element, i: nat, resolve: Element -> string) returns (item: Option<MetaItem>)
    requires LegacyReady(e)
    ensures item == RecordWith(e, i, HrefProperty(resolve))
  {
    var attributeMap := Config[e.tagName];
    assert attributeMap == MappersFor(e.tagName);
    var j := 0;
    while j < |attributeMap|
      invariant j <= |attributeMap|
      invariant forall k :: 0 <= k < j ==> !Applies(attributeMap[k], e)
    {
      var m := attributeMap[j];
      if m.keyAttribute.None? || HasAttribute(e, m.keyAttribute.value) {
        FirstApplicableAt(attributeMap, e, j);
        var tag := ToLower(e.tagName);
        var valueLink := LegacyHref(resolve, e);
        var attributes := FilterAttributes(e.attributes, OptionList(m.keyAttribute) + OptionList(m.valueAttribute));
        var value: string;
        if m.valueAttribute.Some? {
          value := GetAttribute(e.attributes, m.valueAttribute.value).value;
        } else {
          value := e.text;
        }
        var key: string;
        match m.keyNameFrom {
          case TagName => key := tag;
          case TagValue => key := e.text;
          case AttrName => key := FindAttr(e.attributes, m.keyAttribute.value).value.name;
          case AttrValue => key := FindAttr(e.attributes, m.keyAttribute.value).value.value;
        }
        RecordOfMapper(e, i, HrefProperty(resolve), j, m);
        LegacyValue(e, j, m);
        assert key == KeyOf(m, e) && value == ValueOf(m, e) && attributes == Filtered(e.attributes, Exclusions(m));
        return Some(MetaItem(i, tag, key, value, valueLink, attributes));
      }
      j := j + 1;
    }
    return None;
  }

  /** On the inputs it accepts, the legacy read of the value attribute finds it. */
  lemma {:induction false} LegacyValue(e: Element, j: nat, m: AttributeConfig)
    requires LegacyReady(e)
    requires j < |MappersFor(e.tagName)| && FirstApplicable(MappersFor(e.tagName), e) == Some(j)
    requires m == MappersFor(e.tagName)[j]
    ensures m.valueAttribute.Some? ==> HasAttribute(e, m.valueAttribute.value)
    ensures ValueOf(m, e) == if m.valueAttribute.Some? then GetAttribute(e.attributes, m.valueAttribute.value).value else e.text
  {
  }

  /** On the inputs it accepts, the legacy extractor yields the records of
      `getMeta` over the same elements, except that link and base records
      carry the resolved URL and title and meta records none. */
  lemma {:induction false} LegacyAgreesWithGetMeta(headTags: seq<Element>, resolve: Element -> string)
    ensures |MetaOfWith(headTags, HrefProperty(resolve))| == |MetaOf(headTags)|
    ensures forall k :: 0 <= k < |MetaOf(headTags)| ==>
      MetaOfWith(headTags, HrefProperty(resolve))[k].(valueLink := None) == MetaOf(headTags)[k].(valueLink := None)
    ensures forall r :: r in MetaOfWith(headTags, HrefProperty(resolve)) ==>
      r.idx < |headTags| &&
      (r.tag == "link" || r.tag == "base" ==> r.valueLink == Some(resolve(headTags[r.idx]))) &&
      (r.tag == "title" || r.tag == "meta" ==> r.valueLink == None)
  {
    LinkOnlyChangesValueLink(headTags, RawHref, HrefProperty(resolve));
    var rs := MetaOfWith(headTags, HrefProperty(resolve));
    MetaOfRecords(headTags, HrefProperty(resolve));
    forall r | r in rs
      ensures r.idx < |headTags|
      ensures r.tag == "link" || r.tag == "base" ==> r.valueLink == Some(resolve(headTags[r.idx]))
      ensures r.tag == "title" || r.tag == "meta" ==> r.valueLink == None
    {
      var k :| 0 <= k < |rs| && rs[k] == r;
      LowerTag(headTags[r.idx]);
    }
  }

  /** Only the four table tags yield records, and lower-casing keeps them apart. */
  lemma {:induction false} LowerTag(e: Element)
    requires e.tagName in Config
    ensures ToLower(e.tagName) == "link" <==> e.tagName == "LINK"
    ensures ToLower(e.tagName) == "base" <==> e.tagName == "BASE"
    ensures ToLower(e.tagName) in {"title", "meta", "link", "base"}
  {
    ConfigShape();
    if e.tagName == "TITLE" {
      LowerTitle();
    } else if e.tagName == "META" {
      LowerMeta();
    } else if e.tagName == "LINK" {
      LowerLink();
    } else {
      LowerBase();
    }
  }

  lemma {:induction false} LowerTitle()
    ensures ToLower("TITLE") == "title"
  {
  }

  lemma {:induction false} LowerMeta()
    ensures ToLower("META") == "meta"
  {
  }

  lemma {:induction false} LowerLink()
    ensures ToLower("LINK") == "link"
  {
  }

  lemma {:induction false} LowerBase()
    ensures ToLower("BASE") == "base"
  {
  }
}
