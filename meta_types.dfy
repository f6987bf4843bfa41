/** The data shapes of the core: a head element as the extractor sees it,
    the record it turns that element into (`MetaItem`), the per-tag mapping
    descriptor (`AttributeConfig`) and one validation finding (`Issue`). */
module MetaTypes {
  import opened Wrappers

  /** One attribute of an element, in declaration order. */
  datatype Attr = Attr(name: string, value: string)

  /** A head element: its `tagName` (upper case for HTML elements), its
      attributes in order and its `textContent`, which is never null for an
      element. */
  datatype Element = Element(tagName: string, attributes: seq<Attr>, text: string)

  /** One record of the unified meta list. `attributes` is the residual
      attribute list; the source builds an object from it, which keeps the
      same names in the same order. */
  datatype MetaItem = MetaItem(
    idx: nat,
    tag: string,
    key: string,
    value: string,
    valueLink: Option<string>,
    attributes: seq<Attr>)

  /** How a record's key is derived. */
  datatype KeyNameFrom = TagName | TagValue | AttrName | AttrValue

  /** One candidate mapping of a tag's attributes onto a record. */
  datatype AttributeConfig = AttributeConfig(
    keyNameFrom: KeyNameFrom,
    keyAttribute: Option<string>,
    valueAttribute: Option<string>)

  datatype Severity = Warning | Error

  /** A finding, with the rule that produced it and the record it points at;
      `meta == None` is a required record that is missing. */
  datatype Issue<R> = Issue(severity: Severity, message: string, rule: R, meta: Option<MetaItem>)

  /** The first attribute with the given name, as `getAttributeNode` returns it. */
  function FindAttr(attrs: seq<Attr>, name: string): (r: Option<Attr>)
    ensures r.Some? <==> exists i :: 0 <= i < |attrs| && attrs[i].name == name
    ensures r.Some? ==> r.value in attrs && r.value.name == name
  {
    if attrs == [] then None
    else if attrs[0].name == name then Some(attrs[0])
    else FindAttr(attrs[1..], name)
  }

  /** `element.getAttribute(name)`: the value, or null when absent. */
  function GetAttribute(attrs: seq<Attr>, name: string): Option<string> {
    match FindAttr(attrs, name)
    case Some(a) => Some(a.value)
    case None => None
  }

  /** `name in element.attributes` */
  predicate HasAttribute(e: Element, name: string) {
    FindAttr(e.attributes, name).Some?
  }
}
