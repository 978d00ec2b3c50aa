/** Names of the properties of one object, and how to see that they are distinct. */
module PropertyNames {
  import opened Utf16
  import opened Sorting

  ghost predicate DistinctNames(names: seq<string>) {
    forall i, j :: 0 <= i < j < |names| ==> Ascii(names[i]) != Ascii(names[j])
  }

  /** Length, first and last unit: enough to tell property names apart. */
  function Tag(t: Text): int {
    if t == [] then 0
    else
      var first: int, last: int := t[0], t[|t| - 1];
      |t| * 0x10000 + first * 0x80 + last
  }

  /** Names whose tags differ pairwise are distinct. */
  lemma DistinctByTags(names: seq<string>, tags: seq<int>)
    requires |names| == |tags| && Distinct(tags)
    requires forall i :: 0 <= i < |names| ==> Tag(Ascii(names[i])) == tags[i]
    ensures DistinctNames(names)
  {
    forall i, j | 0 <= i < j < |names| ensures Ascii(names[i]) != Ascii(names[j]) {
      assert tags[i] != tags[j];
    }
  }
}
