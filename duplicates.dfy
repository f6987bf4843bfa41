/** The duplicate scan of the panel's list refresh: meta, base and title
    records are compared by key; every repetition of a key that is not on the
    ignore list is pushed to `duplicateKeys`, and every record whose key is
    there is shown with the `warning` class. */
module Duplicates {
  import opened MetaTypes

  /** `IGNORED_DUPLICATE_KEYS`: Windows pinned-site tasks repeat by design. */
  const IgnoredDuplicateKeys: seq<string> := ["msapplication-task", "msapplication-task-separator"]

  /** Only meta, base and title records take part in the scan. */
  predicate IsScanned(item: MetaItem) {
    item.tag == "meta" || item.tag == "base" || item.tag == "title"
  }

  /** The keys of the scanned records, in record order. */
  function ScannedKeys(items: seq<MetaItem>): (keys: seq<string>)
    ensures |keys| <= |items|
    decreases |items|
  {
    if items == [] then []
    else
      var last := items[|items| - 1];
      ScannedKeys(items[..|items| - 1]) + (if IsScanned(last) then [last.key] else [])
  }

  /** What the scan reports: the key of each scanned record whose key an
      earlier scanned record already had, unless the key is ignored. */
  function RepeatedKeys(items: seq<MetaItem>): seq<string>
    decreases |items|
  {
    if items == [] then []
    else
      var init, last := items[..|items| - 1], items[|items| - 1];
      RepeatedKeys(init)
        + (if IsScanned(last) && last.key in ScannedKeys(init) && last.key !in IgnoredDuplicateKeys
           then [last.key] else [])
  }

  /** The first loop of `refreshMetaList`. `distinctKeys` holds each scanned
      key once, in order of first appearance. */
  method DuplicateKeys(metaData: seq<MetaItem>) returns (duplicateKeys: seq<string>)
    ensures duplicateKeys == RepeatedKeys(metaData)
  {
    var distinctKeys: seq<string> := [];
    duplicateKeys := [];
    var i := 0;
    while i < |metaData|
      invariant i <= |metaData|
      invariant forall k :: k in distinctKeys <==> k in ScannedKeys(metaData[..i])
      invariant duplicateKeys == RepeatedKeys(metaData[..i])
    {
      var prefix := metaData[..i + 1];
      assert prefix[..i] == metaData[..i];
      var item := metaData[i];
      if item.tag == "meta" || item.tag == "base" || item.tag == "title" {
        if item.key !in distinctKeys {
          distinctKeys := distinctKeys + [item.key];
        } else if item.key !in IgnoredDuplicateKeys {
          duplicateKeys := duplicateKeys + [item.key];
        }
      }
      i := i + 1;
    }
    assert metaData[..|metaData|] == metaData;
  }

  /** `duplicateKeys.indexOf(metaData[i].key) >= 0`: the record gets the
      `warning` class, whatever its tag. */
  predicate HasWarning(item: MetaItem, duplicateKeys: seq<string>) {
    item.key in duplicateKeys
  }

  /** A key seen `n >= 2` times among the scanned records is reported
      `n - 1` times; a key seen once, or ignored, is not reported. */
  lemma {:induction false} RepeatedKeysCount(items: seq<MetaItem>, k: string)
    ensures multiset(RepeatedKeys(items))[k] ==
      if k in IgnoredDuplicateKeys || multiset(ScannedKeys(items))[k] == 0 then 0
      else multiset(ScannedKeys(items))[k] - 1
    decreases |items|
  {
    if items != [] {
      var init, last := items[..|items| - 1], items[|items| - 1];
      RepeatedKeysCount(init, k);
      assert ScannedKeys(items) == ScannedKeys(init) + (if IsScanned(last) then [last.key] else []);
      assert RepeatedKeys(items) == RepeatedKeys(init)
        + (if IsScanned(last) && last.key in ScannedKeys(init) && last.key !in IgnoredDuplicateKeys
           then [last.key] else []);
      InMultiset(ScannedKeys(init), last.key);
    }
  }

  lemma {:induction false} InMultiset(s: seq<string>, k: string)
    ensures k in s <==> multiset(s)[k] > 0
  {
  }

  /** The ignored keys are never reported. */
  lemma {:induction false} IgnoredNeverReported(items: seq<MetaItem>)
    ensures forall j :: 0 <= j < |IgnoredDuplicateKeys| ==> IgnoredDuplicateKeys[j] !in RepeatedKeys(items)
  {
    forall j | 0 <= j < |IgnoredDuplicateKeys|
      ensures IgnoredDuplicateKeys[j] !in RepeatedKeys(items)
    {
      RepeatedKeysCount(items, IgnoredDuplicateKeys[j]);
      InMultiset(RepeatedKeys(items), IgnoredDuplicateKeys[j]);
    }
  }

  /** A record is flagged exactly when its key is not ignored and at least
      two meta, base or title records carry it; the first of them is flagged
      too, and so is a record of another tag with that key. */
  lemma {:induction false} WarningIff(items: seq<MetaItem>, item: MetaItem)
    ensures HasWarning(item, RepeatedKeys(items)) <==>
      item.key !in IgnoredDuplicateKeys && multiset(ScannedKeys(items))[item.key] >= 2
  {
    RepeatedKeysCount(items, item.key);
    InMultiset(RepeatedKeys(items), item.key);
  }

  /** Records of other tags (link, and anything else) never make a key a duplicate. */
  lemma {:induction false} OtherTagsIgnored(items: seq<MetaItem>, other: MetaItem)
    requires !IsScanned(other)
    ensures RepeatedKeys(items + [other]) == RepeatedKeys(items)
    ensures ScannedKeys(items + [other]) == ScannedKeys(items)
  {
    assert (items + [other])[..|items|] == items;
  }
}
