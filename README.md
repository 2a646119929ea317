# Vendor tag registry of the default camera HAL

This project models the vendor tag registry of the default camera HAL in
`modules/camera/VendorTags.cpp`. Vendor tags are 32-bit metadata identifiers
above a vendor base. The registry keeps a fixed table of three demo sections:
`demo.wizardry` with 4 tags, `demo.sorcery` with 2 and `demo.magic` with 2.
Each section has a name, a half-open tag range `[start, end)` and one entry
(a name and a value type) per tag.

The registry decodes a tag in two steps:

* `getSection` takes the tag's 65536-tag block above the base.
* `getEntry` takes the tag's offset within the section.

On top of these, the `VendorTags` class counts the tags once when it is
constructed, writes every tag into a buffer the caller owns, and looks up
section names, tag names and tag types.

Files:

* `vendor_tag_table.dfy` (module `VendorTagTable`): the entry, section and
  table records; the layout invariant `Table.Valid`; `GetSection`; `GetEntry`;
  the specification functions `Total` and `AllTags`, with their lemmas; the
  demo table `DemoTable(base)`.
* `vendor_tags.dfy` (module `VendorTagRegistry`): the class `VendorTags`, with
  the field `tagCount` (`mTagCount`) and a constructor that adds up the section
  sizes in a loop. `GetAllTags` writes through an advancing position into an
  `array?<uint32>`, where `null` stands for a NULL buffer. The file also holds
  the lookups and the lemmas that relate lookups to enumeration.
* `wrappers.dfy`: `Option`, which stands for a pointer that may be NULL.

The table is a parameter: a `Table(base, sections)` for which `Valid()`
holds. The header that defines `VENDOR_SECTION_START` and the `DEMO_*`
constants is not part of this model. So the base is a parameter of
`DemoTable`, and a table is valid when it has this layout:

* section i starts at `base + (i << 16)`;
* `start <= end <= start + 0x10000`;
* a section holds exactly `end - start` entries;
* the total count fits in a non-negative C `int`.

`GetEntry` never checks `tag >= start`. It is safe only because of the first
condition (`EntryIndexInBounds`). `StartCheckOmitted` gives a table that breaks
only that condition; in it, the computed index is negative.

The unsigned arithmetic is written out explicitly:

* the `uint32_t` subtraction in `getSection` is reduced modulo 2^32;
* the conversion of `tag - section->start` to `int` is two's complement.

`getAllTags` has no error result. With a NULL buffer it logs and returns
(VendorTags.cpp:146-149). So in the model `GetAllTags` has no result, and it
writes nothing when the buffer is `null`.

## Model

| member | source | states |
|---|---|---|
| `VendorTagTable.Entry` | modules/camera/VendorTags.cpp:36-39 | no contract: the `Entry` struct, a name and a value type |
| `VendorTagTable.Section` | modules/camera/VendorTags.cpp:41-46 | no contract: the `Section` struct, a name, `start`, `end` and the entry array |
| `VendorTagTable.Table` | modules/camera/VendorTags.cpp:75-88 | no contract: the section array `DemoSections`, together with the vendor base `VENDOR_SECTION_START` |
| `VendorTagTable.Table.Valid` | modules/camera/VendorTags.cpp:75-88 | no contract: the layout the header constants are assumed to give: section i starts at `base + (i << 16)`, its range fits its block, it holds `end - start` entries, and the total fits the C `int` |
| `VendorTagTable.Wrap32` | modules/camera/VendorTags.cpp:93 | the `uint32_t` subtraction: the result is congruent to the exact difference modulo 2^32, and equal to it when the difference is a `uint32_t` |
| `VendorTagTable.ToInt32` | modules/camera/VendorTags.cpp:122 | the conversion of a `uint32_t` to `int`: the result lies in the 32-bit signed range, is congruent to its argument modulo 2^32, and equals it below 2^31 |
| `VendorTagTable.EntryIndex` | modules/camera/VendorTags.cpp:122 | `int index = tag - section->start`: a 32-bit signed value congruent to `tag - start` modulo 2^32, and equal to it when the difference fits an `int` |
| `VendorTagTable.CodeInjective` | modules/camera/VendorTags.cpp:179-187 | two value types have the same code exactly when they are the same type, so the code getTagType returns identifies the type |
| `VendorTagTable.ValueType.Code` | modules/camera/VendorTags.cpp:36-39 | a type code fits the `uint8_t` field of an entry |
| `VendorTagTable.GetSection` | modules/camera/VendorTags.cpp:91-106 | no tag below the base is accepted, whatever the wrapped subtraction gives; a tag is accepted exactly when `(tag - base) >> 16` is below the section count, and then that block number is the result |
| `VendorTagTable.GetEntry` | modules/camera/VendorTags.cpp:109-124 | a failed section lookup gives no entry; a returned entry belongs to a tag inside the declared range of section `(tag - base) >> 16`, and it is the entry in that section's slot `tag - start` |
| `VendorTagTable.EntryIndexInBounds` | modules/camera/VendorTags.cpp:117-123 | in a valid table, a tag that passes both checks of getEntry is at or above the section start, so the converted index is `tag - start` and lies in `[0, end - start)` |
| `VendorTagTable.StartCheckOmitted` | modules/camera/VendorTags.cpp:117-123 | without the layout, a tag below a section's start passes both of getEntry's checks and gives the negative index -11 |
| `VendorTagTable.SectionBlock` | modules/camera/VendorTags.cpp:93-105 | in a valid table, section i is selected exactly by the tags of its block `[start, start + 0x10000)` |
| `VendorTagTable.DecodeDeclared` | modules/camera/VendorTags.cpp:109-124 | a tag inside section i's `[start, end)` decodes to section i and to the entry at slot `tag - start` |
| `VendorTagTable.EntryFound` | modules/camera/VendorTags.cpp:111-123 | getEntry succeeds if and only if the tag lies inside some section's declared range |
| `VendorTagTable.ValidLayout` | modules/camera/VendorTags.cpp:75-88 | the layout makes every range well formed, and section ranges ascending and disjoint |
| `VendorTagTable.PrefixStep` | modules/camera/VendorTags.cpp:130-131 | adding one more section to a prefix adds its size to the count and appends its tags to the enumeration |
| `VendorTagTable.AllTagsLength` | modules/camera/VendorTags.cpp:127-157 | the enumeration has exactly as many elements as the sum of `end - start` |
| `VendorTagTable.AllTagsAt` | modules/camera/VendorTags.cpp:151-156 | the j-th tag of section i is at position `Total(sections before i) + j` of the enumeration |
| `VendorTagTable.AllTagsMembers` | modules/camera/VendorTags.cpp:151-156 | a tag is enumerated if and only if it lies inside some section's `[start, end)`: nothing is omitted and nothing is added |
| `VendorTagTable.AllTagsIncreasing` | modules/camera/VendorTags.cpp:151-156 | with ascending, disjoint sections the enumeration is strictly increasing, so it has no duplicates |
| `VendorTagTable.DemoWizardry` | modules/camera/VendorTags.cpp:49-58 | no contract: the data as declared |
| `VendorTagTable.DemoSorcery` | modules/camera/VendorTags.cpp:60-65 | no contract: the data as declared |
| `VendorTagTable.DemoMagic` | modules/camera/VendorTags.cpp:67-72 | no contract: the data as declared |
| `VendorTagTable.DemoTable` | modules/camera/VendorTags.cpp:75-88 | no contract: `DemoSections` as declared, for the vendor base `base`; its properties are in `DemoTableValid` and `DemoTableTags` |
| `VendorTagTable.DemoTableValid` | modules/camera/VendorTags.cpp:49-88 | the demo table has the layout, and it declares 4 + 2 + 2 = 8 tags |
| `VendorTagTable.DemoTableTags` | modules/camera/VendorTags.cpp:75-88 | the demo table enumerates `base .. base+3`, `base+0x10000 .. base+0x10001` and `base+0x20000 .. base+0x20001` |
| `VendorTagRegistry.VendorTags.constructor` | modules/camera/VendorTags.cpp:127-133 | after construction, `tagCount` is the sum of `end - start` over all sections |
| `VendorTagRegistry.VendorTags.GetTagCount` | modules/camera/VendorTags.cpp:139-142 | the count returned is the table's number of tags, which is also the length of the enumeration, and it fits a non-negative `int` |
| `VendorTagRegistry.VendorTags.GetAllTags` | modules/camera/VendorTags.cpp:144-157 | with a non-null buffer, its first `tagCount` slots become the enumeration and every slot after them is unchanged; a null buffer is not written |
| `VendorTagRegistry.WriteTags` | modules/camera/VendorTags.cpp:151-156 | the outer loop writes every section's tags in order at the advancing position, and leaves the slots after them unchanged |
| `VendorTagRegistry.WriteSection` | modules/camera/VendorTags.cpp:152-155 | the inner loop writes `start, ..., end - 1` at positions `p, ..., p + end - start - 1` and nothing else |
| `VendorTagRegistry.VendorTags.GetSectionName` | modules/camera/VendorTags.cpp:159-167 | a name is returned if and only if the tag is at or above the base and its block number is below the section count; the name is that block's section name |
| `VendorTagRegistry.VendorTags.GetTagName` | modules/camera/VendorTags.cpp:169-177 | a name is returned if and only if the tag lies inside some section's declared range, and it is the name declared for the tag's slot `tag - start` |
| `VendorTagRegistry.VendorTags.GetTagType` | modules/camera/VendorTags.cpp:179-187 | the result is -1 or a type code in `[0, 256)`; it differs from -1 if and only if the tag lies inside some section's declared range, and then it is the code of the type declared for the tag's slot |
| `VendorTagRegistry.OutOfVendorRange` | modules/camera/VendorTags.cpp:93-103 | a tag below the base, or past the last section's block, has no section name, no tag name and type -1 |
| `VendorTagRegistry.SectionWiderThanEntry` | modules/camera/VendorTags.cpp:100-120 | a tag inside section i's block but at or past its `end` still has section i's name, yet no tag name, and its type is -1 |
| `VendorTagRegistry.DeclaredTagLookup` | modules/camera/VendorTags.cpp:159-187 | a tag inside section i's range gets section i's name, and the name and type code declared for slot `tag - start` |
| `VendorTagRegistry.EnumeratedTagsAccepted` | modules/camera/VendorTags.cpp:144-187 | a tag is enumerated if and only if getTagName accepts it, which holds if and only if getTagType does not return -1; every enumerated tag has a section name |
| `VendorTagRegistry.EnumerationAscending` | modules/camera/VendorTags.cpp:144-157 | the `getTagCount()` tags the registry enumerates are strictly ascending |
| `VendorTagRegistry.DemoTagCount` | modules/camera/VendorTags.cpp:127-142 | a registry built on the demo table counts 8 tags |
| `VendorTagRegistry.DemoDeclaredLookups` | modules/camera/VendorTags.cpp:49-88 | in the demo registry: `base+2` is `familiar`; `base+3` has the rational type; `base+0x20001` lies in `demo.magic` |
| `VendorTagRegistry.DemoRejectedLookups` | modules/camera/VendorTags.cpp:159-187 | in the demo registry, `base-1` has no tag name; `base+0x20002` has type -1 but still lies in `demo.magic` |

## Left out

- Logging (`ALOGE`) and tracing (`ATRACE`): these are observability side effects only.
- The `vendor_tag_ops_t* ops` parameter: it is passed through and never read.
- C strings and pointers: names are Dafny strings, NULL results are `None`, and a section pointer is the section's index.
- The values of `VENDOR_SECTION_START` and of the `DEMO_*` constants: their header is not part of this model. The base is a parameter. Each demo section's tags are assumed to run from its start in the order its entry array declares them, so every slot is declared and no zero-filled slot exists.
- The numbering of the `TYPE_*` codes comes from the camera metadata header, which is not part of this model. `Code` uses that header's order (byte 0, int32 1, float 2, int64 3, double 4, rational 5). The proofs rely only on each code lying in `[0, 256)` and on different types having different codes.
- Floating-point semantics of the float and double types: these are type tags only.
- Overflow of the C `int` `mTagCount`: `Table.Valid` requires the total to fit, so no wrap-around is modelled.
- The empty destructor.
- Concurrency and idempotence of the lookups: the lookups are pure functions of the tag and the constant table, so repeated calls agree by construction.
- GetAllTags: the buffer must hold at least `tagCount` elements, as the host framework promises. The nested loops are split into the methods `WriteTags` (outer loop) and `WriteSection` (inner loop).
