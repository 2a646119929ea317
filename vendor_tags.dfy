/**
 * The VendorTags registry of the default camera HAL: the tag count computed
 * once at construction, the enumeration of every tag into a caller's buffer,
 * and the three name and type lookups over the static table.
 */
module VendorTagRegistry {
  import opened Wrappers
  import opened VendorTagTable

  class VendorTags {
    /** The static table the registry answers from (DemoSections in the HAL). */
    const table: Table
    /** mTagCount. */
    var tagCount: int

    /** The table is well laid out and the count is the table's number of tags. */
    ghost predicate Valid()
      reads this
    {
      table.Valid() && tagCount == Total(table.sections)
    }

    /** Sums the sizes of the sections into the tag count. */
    constructor (t: Table)
      requires t.Valid()
      ensures table == t
      ensures tagCount == Total(t.sections)
      ensures Valid()
    {
      table := t;
      tagCount := 0;
      new;
      var i := 0;
      while i < |t.sections|
        invariant 0 <= i <= |t.sections|
        invariant table == t
        invariant tagCount == Total(t.sections[..i])
      {
        assert t.sections[..i + 1][..i] == t.sections[..i];
        tagCount := tagCount + (t.sections[i].end - t.sections[i].start);
        i := i + 1;
      }
      assert t.sections[..i] == t.sections;
    }

    /** getTagCount: the number of tags the table declares, also the length of the enumeration. */
    function GetTagCount(): (n: int)
      reads this
      requires Valid()
      ensures n == Total(table.sections)
      ensures n == |AllTags(table.sections)|
      ensures 0 <= n < 0x8000_0000
    {
      ValidLayout(table);
      AllTagsLength(table.sections);
      tagCount
    }

    /**
     * getAllTags: with a NULL buffer nothing is written; otherwise the buffer's
     * first tagCount elements become the enumeration and the rest is untouched.
     */
    method GetAllTags(tagArray: array?<uint32>)
      requires Valid()
      requires tagArray != null ==> tagArray.Length >= tagCount
      modifies tagArray
      ensures tagArray != null ==> tagArray[..tagCount] == AllTags(table.sections)
      ensures tagArray != null ==> tagArray[tagCount..] == old(tagArray[tagCount..])
    {
      if tagArray == null {
        return;
      }
      ValidLayout(table);
      WriteTags(tagArray, table.sections);
    }

    /** getSectionName: the name of the section whose block holds `tag`. */
    function GetSectionName(tag: uint32): (r: Option<string>)
      ensures r.Some? <==> table.base <= tag && (tag - table.base) / 0x10000 < |table.sections|
      ensures r.Some? ==> r.value == table.sections[(tag - table.base) / 0x10000].name
    {
      match GetSection(table, tag)
      case None => None
      case Some(i) => Some(table.sections[i].name)
    }

    /** getTagName: the name of the entry of `tag`. */
    function GetTagName(tag: uint32): (r: Option<string>)
      requires table.Valid()
      ensures r.Some? <==> exists i :: InSection(table.sections, i, tag)
      ensures r.Some? ==> exists i :: (InSection(table.sections, i, tag) &&
                                       r.value == table.sections[i].tags[tag - table.sections[i].start].name)
    {
      EntryFound(table, tag);
      match GetEntry(table, tag)
      case None => None
      case Some(e) => Some(e.name)
    }

    /** getTagType: the type code of the entry of `tag`, or -1 when there is none. */
    function GetTagType(tag: uint32): (r: int)
      requires table.Valid()
      ensures -1 <= r < 0x100
      ensures r != -1 <==> exists i :: InSection(table.sections, i, tag)
      ensures r != -1 ==> exists i :: (InSection(table.sections, i, tag) &&
                                       r == table.sections[i].tags[tag - table.sections[i].start].valueType.Code())
    {
      EntryFound(table, tag);
      match GetEntry(table, tag)
      case None => -1
      case Some(e) => e.valueType.Code()
    }
  }

  /**
   * The outer loop of getAllTags: writes each section's tags in turn through
   * an advancing position in `a`, leaving everything past them alone.
   */
  method WriteTags(a: array<uint32>, s: seq<Section>)
    requires Proper(s)
    requires Total(s) <= a.Length
    modifies a
    ensures 0 <= Total(s)
    ensures a[..Total(s)] == AllTags(s)
    ensures a[Total(s)..] == old(a[Total(s)..])
  {
    ghost var all := AllTags(s);
    AllTagsLength(s);
    var p: nat := 0;
    var i := 0;
    while i < |s|
      invariant 0 <= i <= |s|
      invariant p == Total(s[..i]) <= |all|
      invariant forall k :: 0 <= k < p ==> a[k] == all[k]
      invariant forall k :: p <= k < a.Length ==> a[k] == old(a[k])
    {
      TotalPrefix(s, i + 1);
      PrefixStep(s, i);
      ghost var p0 := p;
      p := WriteSection(a, p, s[i].start, s[i].end);
      forall k | p0 <= k < p
        ensures a[k] == all[k]
      {
        AllTagsAt(s, i, k - p0);
      }
      i := i + 1;
    }
    assert s[..i] == s;
    assert a[..p] == all;
  }

  /**
   * The inner loop of getAllTags: writes the tags `start, ..., end - 1` from
   * position `p` on and returns the position after the last one written.
   */
  method WriteSection(a: array<uint32>, p: nat, start: uint32, end: uint32) returns (q: nat)
    requires start <= end
    requires p + (end - start) <= a.Length
    modifies a
    ensures q == p + (end - start)
    ensures forall k :: p <= k < q ==> a[k] == start + (k - p)
    ensures forall k :: 0 <= k < a.Length && !(p <= k < q) ==> a[k] == old(a[k])
  {
    q := p;
    var tag := start;
    while tag < end
      invariant start <= tag <= end
      invariant q == p + (tag - start)
      invariant forall k :: p <= k < q ==> a[k] == start + (k - p)
      invariant forall k :: 0 <= k < a.Length && !(p <= k < q) ==> a[k] == old(a[k])
    {
      a[q] := tag;
      q := q + 1;
      tag := tag + 1;
    }
  }

  /** Tags below the vendor base or past the last section's block are unknown to every lookup. */
  lemma OutOfVendorRange(v: VendorTags, tag: uint32)
    requires v.table.Valid()
    requires tag < v.table.base || (tag - v.table.base) / 0x10000 >= |v.table.sections|
    ensures v.GetSectionName(tag) == None
    ensures v.GetTagName(tag) == None
    ensures v.GetTagType(tag) == -1
  {
  }

  /**
   * The section lookup is wider than the entry lookup: a tag inside section
   * i's 65536-tag block but at or past its end still has a section name, while
   * it has neither a tag name nor a tag type.
   */
  lemma SectionWiderThanEntry(v: VendorTags, i: nat, tag: uint32)
    requires v.table.Valid()
    requires i < |v.table.sections|
    requires v.table.sections[i].end <= tag < v.table.sections[i].start + 0x10000
    ensures v.GetSectionName(tag) == Some(v.table.sections[i].name)
    ensures v.GetTagName(tag) == None
    ensures v.GetTagType(tag) == -1
  {
    SectionBlock(v.table, i, tag);
  }

  /** A tag inside a declared range is reported with its section's name and its slot's name and type. */
  lemma DeclaredTagLookup(v: VendorTags, i: int, tag: uint32)
    requires v.table.Valid()
    requires InSection(v.table.sections, i, tag)
    ensures v.GetSectionName(tag) == Some(v.table.sections[i].name)
    ensures v.GetTagName(tag) == Some(v.table.sections[i].tags[tag - v.table.sections[i].start].name)
    ensures v.GetTagType(tag) == v.table.sections[i].tags[tag - v.table.sections[i].start].valueType.Code()
  {
    DecodeDeclared(v.table, i, tag);
  }

  /**
   * The enumeration and the lookups agree: a tag is enumerated exactly when
   * the tag name and type lookups accept it, and every enumerated tag also has
   * a section name.
   */
  lemma EnumeratedTagsAccepted(v: VendorTags, tag: uint32)
    requires v.table.Valid()
    ensures tag in AllTags(v.table.sections) <==> v.GetTagName(tag).Some?
    ensures tag in AllTags(v.table.sections) <==> v.GetTagType(tag) != -1
    ensures tag in AllTags(v.table.sections) ==> v.GetSectionName(tag).Some?
  {
    AllTagsMembers(v.table.sections, tag);
    if tag in AllTags(v.table.sections) {
      var i :| InSection(v.table.sections, i, tag);
      DeclaredTagLookup(v, i, tag);
    }
  }

  /** The enumeration of a registry's table is strictly ascending, so it repeats no tag. */
  lemma EnumerationAscending(v: VendorTags)
    requires v.Valid()
    ensures forall a, b :: 0 <= a < b < v.GetTagCount() ==>
      AllTags(v.table.sections)[a] < AllTags(v.table.sections)[b]
  {
    ValidLayout(v.table);
    AllTagsIncreasing(v.table.sections);
  }

  /** A registry built on the three demo sections of 4, 2 and 2 tags counts 8 tags. */
  lemma DemoTagCount(v: VendorTags, base: uint32)
    requires DemoFits(base)
    requires v.table == DemoTable(base)
    requires v.Valid()
    ensures v.GetTagCount() == 8
  {
    DemoTableValid(base);
  }

  /** Names and types the demo registry reports for tags of its first and last sections. */
  lemma DemoDeclaredLookups(v: VendorTags, base: uint32)
    requires DemoFits(base)
    requires v.table == DemoTable(base)
    ensures v.table.Valid()
    ensures v.GetTagName(base + 2) == Some("familiar")
    ensures v.GetTagType(base + 3) == Rational.Code()
    ensures v.GetSectionName(base + 0x20001) == Some("demo.magic")
  {
    DemoTableValid(base);
    DeclaredTagLookup(v, 0, base + 2);
    DeclaredTagLookup(v, 0, base + 3);
    DeclaredTagLookup(v, 2, base + 0x20001);
  }

  /** Probes the demo registry rejects: below the base, and past the last section's end. */
  lemma DemoRejectedLookups(v: VendorTags, base: uint32)
    requires DemoFits(base)
    requires v.table == DemoTable(base)
    ensures v.table.Valid()
    ensures base > 0 ==> v.GetTagName(base - 1) == None
    ensures v.GetTagType(base + 0x20002) == -1
    ensures v.GetSectionName(base + 0x20002) == Some("demo.magic")
  {
    DemoTableValid(base);
    SectionWiderThanEntry(v, 2, base + 0x20002);
    if base > 0 {
      OutOfVendorRange(v, base - 1);
    }
  }
}
