/**
 * The static vendor tag table of the default camera HAL and its two-level
 * decode: a 32-bit tag selects a section by its 65536-tag block above the
 * vendor base, and an entry by its offset from the section's start.
 */
module VendorTagTable {
  import opened Wrappers

  /** The C `uint32_t`. */
  type uint32 = x: int | 0 <= x < 0x1_0000_0000

  /** Unsigned 32-bit arithmetic: the result of a C `uint32_t` subtraction. */
  function Wrap32(x: int): (r: uint32)
    ensures 0 <= x < 0x1_0000_0000 ==> r == x
    ensures (r - x) % 0x1_0000_0000 == 0
  {
    x % 0x1_0000_0000
  }

  /** The conversion of a `uint32_t` to a 32-bit two's-complement `int`. */
  function ToInt32(x: uint32): (r: int)
    ensures -0x8000_0000 <= r < 0x8000_0000
    ensures (r - x) % 0x1_0000_0000 == 0
    ensures x < 0x8000_0000 ==> r == x
  {
    if x < 0x8000_0000 then x else x - 0x1_0000_0000
  }

  /** The metadata value types a vendor tag may declare. */
  datatype ValueType = Byte | Int32 | Float | Int64 | Double | Rational
  {
    /** The `uint8_t` code of the type, as the camera metadata header numbers them. */
    function Code(): (c: int)
      ensures 0 <= c < 0x100
    {
      match this
      case Byte => 0
      case Int32 => 1
      case Float => 2
      case Int64 => 3
      case Double => 4
      case Rational => 5
    }
  }

  /** Different value types have different codes, so getTagType's result names the type. */
  lemma CodeInjective(a: ValueType, b: ValueType)
    ensures a.Code() == b.Code() <==> a == b
  {
  }

  /** One vendor tag: its name and declared value type. */
  datatype Entry = Entry(name: string, valueType: ValueType)

  /** A named half-open tag range `[start, end)` with one entry per tag. */
  datatype Section = Section(name: string, start: uint32, end: uint32, tags: seq<Entry>)

  /**
   * The whole table: `base` is the first vendor tag (VENDOR_SECTION_START)
   * and `sections[i]` is the section with index i.
   */
  datatype Table = Table(base: uint32, sections: seq<Section>)
  {
    /**
     * The layout the header constants give the table: section i starts at
     * `base + (i << 16)`, ends no later than its 65536-tag block does, and
     * holds exactly `end - start` entries; the total number of tags fits the
     * non-negative range of the C `int` in which the registry counts them.
     */
    ghost predicate Valid()
    {
      (forall i :: 0 <= i < |sections| ==>
         sections[i].start == base + i * 0x10000 &&
         sections[i].start <= sections[i].end <= sections[i].start + 0x10000 &&
         |sections[i].tags| == sections[i].end - sections[i].start) &&
      0 <= Total(sections) < 0x8000_0000
    }
  }

  /** Every section's range is well formed: `start <= end`. */
  ghost predicate Proper(s: seq<Section>)
  {
    forall i :: 0 <= i < |s| ==> s[i].start <= s[i].end
  }

  /** The sections' ranges follow one another in ascending order without overlap. */
  ghost predicate Ascending(s: seq<Section>)
  {
    forall i, j :: 0 <= i < j < |s| ==> s[i].end <= s[j].start
  }

  /** Tag `tag` lies inside the declared range of section i. */
  ghost predicate InSection(s: seq<Section>, i: int, tag: int)
  {
    0 <= i < |s| && s[i].start <= tag < s[i].end
  }

  /** The number of tags the sections declare: the sum of `end - start`. */
  function Total(s: seq<Section>): int
  {
    if s == [] then 0 else Total(s[..|s| - 1]) + (s[|s| - 1].end - s[|s| - 1].start)
  }

  /** The tags `lo, lo + 1, ..., hi - 1`. */
  function Range(lo: int, hi: int): (r: seq<int>)
    ensures |r| == if hi <= lo then 0 else hi - lo
    ensures forall k :: 0 <= k < |r| ==> r[k] == lo + k
    decreases hi - lo
  {
    if hi <= lo then [] else Range(lo, hi - 1) + [hi - 1]
  }

  /** Every declared tag, section by section, each section's in ascending order. */
  function AllTags(s: seq<Section>): seq<int>
  {
    if s == [] then [] else AllTags(s[..|s| - 1]) + Range(s[|s| - 1].start, s[|s| - 1].end)
  }

  /**
   * getSection: the index of the section whose 65536-tag block holds `tag`.
   * The block number is computed by an unsigned subtraction before the tag is
   * compared with the base; the wrapped value of a tag below the base never
   * reaches the result.
   */
  function GetSection(t: Table, tag: uint32): (r: Option<nat>)
    ensures tag < t.base ==> r == None
    ensures r.Some? <==> t.base <= tag && (tag - t.base) / 0x10000 < |t.sections|
    ensures r.Some? ==> r.value == (tag - t.base) / 0x10000
  {
    var section := Wrap32(tag - t.base) / 0x10000;
    if tag < t.base then None
    else if section >= |t.sections| then None
    else Some(section)
  }

  /** The C `int index = tag - section->start` of getEntry. */
  function EntryIndex(tag: uint32, start: uint32): (r: int)
    ensures -0x8000_0000 <= r < 0x8000_0000
    ensures (r - (tag - start)) % 0x1_0000_0000 == 0
    ensures -0x8000_0000 <= tag - start < 0x8000_0000 ==> r == tag - start
  {
    ToInt32(Wrap32(tag - start))
  }

  /**
   * getEntry: the entry of `tag`. It rejects tags whose section lookup fails
   * and tags at or past the section's end, but never compares the tag with the
   * section's start: that the index is not negative follows from the layout
   * alone (lemma EntryIndexInBounds).
   */
  function GetEntry(t: Table, tag: uint32): (r: Option<Entry>)
    requires t.Valid()
    ensures GetSection(t, tag) == None ==> r == None
    ensures r.Some? ==>
      var i := (tag - t.base) / 0x10000;
      InSection(t.sections, i, tag) && r.value == t.sections[i].tags[tag - t.sections[i].start]
  {
    match GetSection(t, tag)
    case None => None
    case Some(i) =>
      var s := t.sections[i];
      if tag >= s.end then None
      else
        EntryIndexInBounds(t, i, tag);
        Some(s.tags[EntryIndex(tag, s.start)])
  }

  /**
   * The index getEntry computes for a tag its section lookup accepts and that
   * lies below the section's end is a valid index into the section's entries,
   * and equals the tag's offset from the start.
   */
  lemma EntryIndexInBounds(t: Table, i: nat, tag: uint32)
    requires t.Valid()
    requires GetSection(t, tag) == Some(i)
    requires tag < t.sections[i].end
    ensures t.sections[i].start <= tag
    ensures EntryIndex(tag, t.sections[i].start) == tag - t.sections[i].start
    ensures 0 <= EntryIndex(tag, t.sections[i].start) < |t.sections[i].tags|
  {
  }

  /**
   * getEntry's omitted start check matters without the layout: in a table whose
   * only section has a well-formed range holding one entry per tag but starts
   * above its block's first tag, a tag below that start passes both of
   * getEntry's checks and yields a negative index.
   */
  lemma StartCheckOmitted()
    ensures var t := Table(0, [Section("s", 0x10, 0x20, seq(16, k => Entry("e", Byte)))]);
      var s := t.sections[0];
      s.start <= s.end <= s.start + 0x10000 && |s.tags| == s.end - s.start &&
      s.start != t.base && !t.Valid() &&
      GetSection(t, 5) == Some(0) && 5 < s.end &&
      EntryIndex(5, s.start) == -11
  {
  }

  /** In a valid table, section i is selected exactly by the tags of its 65536-tag block. */
  lemma SectionBlock(t: Table, i: nat, tag: uint32)
    requires t.Valid()
    requires i < |t.sections|
    ensures GetSection(t, tag) == Some(i) <==>
      t.sections[i].start <= tag < t.sections[i].start + 0x10000
  {
  }

  /** A tag inside a declared range decodes to that section and to the entry of its slot. */
  lemma DecodeDeclared(t: Table, i: int, tag: uint32)
    requires t.Valid()
    requires InSection(t.sections, i, tag)
    ensures GetSection(t, tag) == Some(i)
    ensures GetEntry(t, tag) == Some(t.sections[i].tags[tag - t.sections[i].start])
  {
    SectionBlock(t, i, tag);
  }

  /** getEntry succeeds exactly on the tags of the declared ranges. */
  lemma EntryFound(t: Table, tag: uint32)
    requires t.Valid()
    ensures GetEntry(t, tag).Some? <==> exists i :: InSection(t.sections, i, tag)
  {
    forall i | InSection(t.sections, i, tag)
      ensures GetEntry(t, tag).Some?
    {
      DecodeDeclared(t, i, tag);
    }
  }

  /** The layout makes the sections' ranges well formed and ascending. */
  lemma ValidLayout(t: Table)
    requires t.Valid()
    ensures Proper(t.sections)
    ensures Ascending(t.sections)
  {
  }

  /** A prefix of a table counts no more tags than the table. */
  lemma {:induction false} TotalPrefix(s: seq<Section>, n: nat)
    requires Proper(s)
    requires n <= |s|
    ensures 0 <= Total(s[..n]) <= Total(s)
    decreases |s|
  {
    if n < |s| {
      var p := s[..|s| - 1];
      assert p[..n] == s[..n];
      TotalPrefix(p, n);
    } else {
      assert s[..n] == s;
      if s != [] {
        TotalPrefix(s[..|s| - 1], |s| - 1);
      }
    }
  }

  /** Extending a prefix of the table by one section adds that section's size and tags. */
  lemma PrefixStep(s: seq<Section>, i: nat)
    requires i < |s|
    ensures Total(s[..i + 1]) == Total(s[..i]) + (s[i].end - s[i].start)
    ensures AllTags(s[..i + 1]) == AllTags(s[..i]) + Range(s[i].start, s[i].end)
  {
    assert s[..i + 1][..i] == s[..i];
  }

  /** The enumeration has one element per declared tag. */
  lemma {:induction false} AllTagsLength(s: seq<Section>)
    requires Proper(s)
    ensures |AllTags(s)| == Total(s)
  {
    if s != [] {
      AllTagsLength(s[..|s| - 1]);
    }
  }

  /** The enumeration of a prefix of the table is a prefix of the table's enumeration. */
  lemma {:induction false} AllTagsPrefix(s: seq<Section>, n: nat)
    requires n <= |s|
    ensures AllTags(s[..n]) <= AllTags(s)
    decreases |s|
  {
    if n < |s| {
      var p := s[..|s| - 1];
      assert p[..n] == s[..n];
      AllTagsPrefix(p, n);
    } else {
      assert s[..n] == s;
    }
  }

  /**
   * Section i's tags sit in the enumeration right after those of the sections
   * before it: its j-th tag is at position Total(s[..i]) + j.
   */
  lemma AllTagsAt(s: seq<Section>, i: nat, j: nat)
    requires Proper(s)
    requires i < |s|
    requires j < s[i].end - s[i].start
    ensures 0 <= Total(s[..i]) && Total(s[..i]) + j < |AllTags(s)| && AllTags(s)[Total(s[..i]) + j] == s[i].start + j
  {
    PrefixStep(s, i);
    TotalPrefix(s, i);
    AllTagsPrefix(s, i + 1);
    AllTagsLength(s[..i]);
    var r := Range(s[i].start, s[i].end);
    var x := Total(s[..i]) + j;
    assert AllTags(s[..i + 1])[x] == r[j];
    assert AllTags(s)[x] == AllTags(s[..i + 1])[x];
  }

  /** The enumeration holds exactly the tags of the declared ranges: no omissions, nothing extra. */
  lemma {:induction false} AllTagsMembers(s: seq<Section>, tag: int)
    ensures tag in AllTags(s) <==> exists i :: InSection(s, i, tag)
  {
    if s != [] {
      var n := |s| - 1;
      var p := s[..n];
      var r := Range(s[n].start, s[n].end);
      AllTagsMembers(p, tag);
      assert AllTags(s) == AllTags(p) + r;
      if tag in AllTags(s) {
        if tag in r {
          var k :| 0 <= k < |r| && r[k] == tag;
          assert InSection(s, n, tag);
        } else {
          var i :| InSection(p, i, tag);
          assert InSection(s, i, tag);
        }
      }
      if i :| InSection(s, i, tag) {
        if i == n {
          assert r[tag - s[n].start] == tag;
        } else {
          assert InSection(p, i, tag);
        }
      }
    }
  }

  /** Every tag a non-empty ascending table enumerates lies below its last section's end. */
  lemma AllTagsBelowLastEnd(s: seq<Section>, k: int)
    requires Ascending(s) && Proper(s) && s != []
    requires 0 <= k < |AllTags(s)|
    ensures AllTags(s)[k] < s[|s| - 1].end
  {
    AllTagsMembers(s, AllTags(s)[k]);
  }

  /** For ascending sections the enumeration is strictly increasing, hence free of duplicates. */
  lemma {:induction false} AllTagsIncreasing(s: seq<Section>)
    requires Proper(s)
    requires Ascending(s)
    ensures forall a, b :: 0 <= a < b < |AllTags(s)| ==> AllTags(s)[a] < AllTags(s)[b]
  {
    if s != [] {
      var n := |s| - 1;
      var p := s[..n];
      var r := Range(s[n].start, s[n].end);
      AllTagsIncreasing(p);
      var all := AllTags(s);
      assert all == AllTags(p) + r;
      forall a, b | 0 <= a < b < |all|
        ensures all[a] < all[b]
      {
        var m := |AllTags(p)|;
        if a < m && m <= b {
          assert p != [];
          AllTagsBelowLastEnd(p, a);
          assert p[|p| - 1].end <= s[n].start;
        }
      }
    }
  }

  // The demo vendor sections. The header that fixes the demo tag constants is
  // not part of this model; each section's tags are taken to run from its
  // start in the order the entry arrays declare them, so that every slot of
  // every entry array is declared.

  const DemoWizardry: seq<Entry> := [
    Entry("dimensionSize", Int32),
    Entry("dimensions", Int32),
    Entry("familiar", Byte),
    Entry("fire", Rational)
  ]

  const DemoSorcery: seq<Entry> := [
    Entry("difficulty", Int64),
    Entry("light", Byte)
  ]

  const DemoMagic: seq<Entry> := [
    Entry("cardTrick", Double),
    Entry("levitation", Float)
  ]

  /** The vendor base leaves room for all three demo sections below 2^32. */
  predicate DemoFits(base: uint32)
  {
    base + 2 * 0x10000 + |DemoMagic| < 0x1_0000_0000
  }

  /** DemoSections, for the vendor base `base`. */
  function DemoTable(base: uint32): Table
    requires DemoFits(base)
  {
    Table(base, [
      Section("demo.wizardry", base, base + |DemoWizardry|, DemoWizardry),
      Section("demo.sorcery", base + 0x10000, base + 0x10000 + |DemoSorcery|, DemoSorcery),
      Section("demo.magic", base + 2 * 0x10000, base + 2 * 0x10000 + |DemoMagic|, DemoMagic)
    ])
  }

  /** The demo table satisfies the layout and declares 4 + 2 + 2 tags. */
  lemma DemoTableValid(base: uint32)
    requires DemoFits(base)
    ensures DemoTable(base).Valid()
    ensures Total(DemoTable(base).sections) == 8
  {
    var s := DemoTable(base).sections;
    assert s[..2][..1] == s[..1];
    assert s[..1][..0] == [];
    assert s[..3] == s;
    assert Total(s[..1]) == 4;
    assert Total(s[..2]) == 6;
  }

  /** The demo table enumerates its sections' tags block by block. */
  lemma DemoTableTags(base: uint32)
    requires DemoFits(base)
    ensures AllTags(DemoTable(base).sections) ==
      [base, base + 1, base + 2, base + 3,
       base + 0x10000, base + 0x10001,
       base + 0x20000, base + 0x20001]
  {
    var s := DemoTable(base).sections;
    assert s[..2][..1] == s[..1];
    assert s[..1][..0] == [];
    assert s[..3] == s;
    assert AllTags(s[..1]) == [base, base + 1, base + 2, base + 3];
    assert AllTags(s[..2]) == AllTags(s[..1]) + [base + 0x10000, base + 0x10001];
  }
}
