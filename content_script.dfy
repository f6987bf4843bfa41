/** The extractor of the content script (`getPageMeta`): the same mapping as
    `getMeta`, over the matches of the head element selector. */
module ContentScript {
  import opened Wrappers
  import opened MetaTypes
  import opened MetaConfig
  import opened Extract

  /** The selector `head title, head base, head meta, head link` only matches
      elements whose tag the mapping table knows. */
  predicate SelectorMatch(e: Element) {
    e.tagName in {"TITLE", "BASE", "META", "LINK"}
  }

  /** `getPageMeta()` over `document.querySelectorAll(HEAD_ELEMENT_SELECTOR)`,
      given in document order. The table lookup has no fallback, so every
      element must be a selector match; `idx` is the position in the match list. */
  method GetPageMeta(headElements: seq<Element>) returns (result: seq<MetaItem>)
    requires forall i :: 0 <= i < |headElements| ==> SelectorMatch(headElements[i])
    ensures result == MetaOf(headElements)
    ensures forall k :: 0 <= k < |result| ==> result[k].idx < |headElements|
    ensures forall i :: 0 <= i < |headElements| ==>
      ((exists k :: 0 <= k < |result| && result[k].idx == i) <==> RecordWith(headElements[i], i, RawHref).Some?)
  {
    result := [];
    for index := 0 to |headElements|
      invariant result == MetaOf(headElements[..index])
    {
      assert headElements[..index + 1][..index] == headElements[..index];
      MetaOfWithSnoc(headElements[..index + 1], RawHref);
      assert headElements[index].tagName in Config;
      var item := MapElement(headElements[index], index);
      result := result + Emit(item);
    }
    assert headElements[..|headElements|] == headElements;
    MatchIndices(headElements);
  }

  /** Each record points back at the match it came from, and a match has a
      record exactly when the mapping yields one for it. */
  lemma {:induction false} MatchIndices(es: seq<Element>)
    ensures forall k :: 0 <= k < |MetaOf(es)| ==> MetaOf(es)[k].idx < |es|
    ensures forall i :: 0 <= i < |es| ==>
      ((exists k :: 0 <= k < |MetaOf(es)| && MetaOf(es)[k].idx == i) <==> RecordWith(es[i], i, RawHref).Some?)
  {
    var r := MetaOf(es);
    assert r == MetaOfWith(es, RawHref);
    MetaOfRecords(es, RawHref);
    forall i | 0 <= i < |es|
      ensures (exists k :: 0 <= k < |r| && r[k].idx == i) <==> RecordWith(es[i], i, RawHref).Some?
    {
      MetaOfComplete(es, RawHref, i);
    }
  }

  /** A selector match always yields a record except a link without `rel` and a
      meta without any of charset, name, property and http-equiv. */
  lemma {:induction false} MatchYieldsRecord(e: Element, idx: nat)
    requires SelectorMatch(e)
    ensures RecordWith(e, idx, RawHref).None? <==>
      (e.tagName == "LINK" && !HasAttribute(e, "rel")) ||
      (e.tagName == "META" && !HasAttribute(e, "charset") && !HasAttribute(e, "name")
        && !HasAttribute(e, "property") && !HasAttribute(e, "http-equiv"))
  {
    if e.tagName == "TITLE" {
      TitleRecord(e, idx, RawHref);
    } else if e.tagName == "BASE" {
      BaseRecord(e, idx, RawHref);
    } else if e.tagName == "LINK" {
      LinkRecord(e, idx, RawHref);
    } else {
      MetaRecord(e, idx, RawHref);
    }
  }
}
