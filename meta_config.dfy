/** The per-tag mapping table the extractors consult (`metaConfig`): for
    each upper-case tag name, the candidate mappings in the order they are
    tried. */
module MetaConfig {
  import opened Wrappers
  import opened MetaTypes

  const Config: map<string, seq<AttributeConfig>> := map[
    "TITLE" := TitleMappers,
    "BASE" := BaseMappers,
    "META" := MetaMappers,
    "LINK" := LinkMappers
  ]

  const TitleMappers := [AttributeConfig(TagName, None, None)]
  const BaseMappers := [AttributeConfig(TagName, None, Some("href"))]
  const MetaMappers := [
    AttributeConfig(AttrName, Some("charset"), Some("charset")),
    AttributeConfig(AttrValue, Some("name"), Some("content")),
    AttributeConfig(AttrValue, Some("property"), Some("content")),
    AttributeConfig(AttrValue, Some("http-equiv"), Some("content"))
  ]
  const LinkMappers := [AttributeConfig(AttrValue, Some("rel"), Some("href"))]

  /** A mapping that reads its key from an attribute names that attribute;
      the extractors dereference `keyAttribute!` for these. */
  predicate KeyReady(m: AttributeConfig) {
    (m.keyNameFrom == AttrName || m.keyNameFrom == AttrValue) ==> m.keyAttribute.Some?
  }

  /** `metaConfig[tagName] ?? []` */
  function MappersFor(tagName: string): (r: seq<AttributeConfig>)
    ensures tagName !in Config ==> r == []
    ensures forall m :: m in r ==> KeyReady(m)
    ensures forall m :: m in r ==> m.keyNameFrom != TagValue
    ensures |r| <= 4
  {
    if tagName in Config then Config[tagName] else []
  }

  /** The table holds exactly the four head tags, and only META has more than one mapping. */
  lemma {:induction false} ConfigShape()
    ensures Config.Keys == {"TITLE", "BASE", "META", "LINK"}
    ensures |Config["TITLE"]| == 1 && |Config["BASE"]| == 1 && |Config["LINK"]| == 1
    ensures |Config["META"]| == 4
    ensures Config["META"][0].keyAttribute == Some("charset") && Config["META"][1].keyAttribute == Some("name")
    ensures Config["META"][2].keyAttribute == Some("property") && Config["META"][3].keyAttribute == Some("http-equiv")
  {
  }
}
