# FreeTTS core, modelled in Dafny

This project models the deterministic core of FreeTTS, a speech synthesiser written in Java, and proves properties of that model. It covers these parts:

- **Cluster unit database** (`ClusterUnits`, `ClusterUnitRecords`, `ClusterUnitFormat`, `ClusterUnitText`). It models the unit-type binary search and the lenient unit-index lookups. It models the join-weight shift rule and the tag-driven text loader. It models the big-endian binary image: `dumpBinary` writes it and `loadBinary` reads it back. Dumping and then loading gives back the header, the join weights, the units, the unit types, the sample sets and the CARTs.
- **Diphones** (`Diphones`). It models the split of the residual count at the mid point and the nearest-sample search within one half. It models the structural comparison and the binary record with its 8-character name field and its MAGIC / ALIAS_MAGIC dispatch. The record round trip is proved.
- **Utilities** (`Utilities`). It models padding, `deleteChar` and the length-prefixed UTF-16 string codec, whose round trip is proved.
- **Duration CART processor** (`Durations`). It models the walk that gives every segment a cumulative "end" time.
- **Feature sets** (`Features`, over `Items`). It models an insertion-ordered typed map and its dump order.
- **Voice registry** (`VoiceRegistry`). It models `UniqueVector` with its invariant, the voices-file filter, `getURLDirName`, the unique class path and the "a b or c" voice listing.
- **Driver** (`FreeTTSMain`). It models splitting a file name into base name and extension, and choosing the audio player in `startup`.
- **In-memory audio players** (`AudioPlayers`). It models the multi-file 8-bit player, the single-file player and the null player.
- **CMU diphone voice** (`CmuDiphoneVoice`). It models the "ah" → "aa" rewrite ahead of the English post-lexical analyser, the cached database lookup and `toString`.
- **Speakable items** (`Speakables`). It models their completed / cancelled states.
- **JSAPI engine central and engine properties** (`EngineCentral`, `EngineProperties`). It models grouping voices by (domain, locale) into mode descriptors, and the duplicate-free listener list.
- **Arctic frame tools** (`ArcticFrames`). It models the three-line STS frame parser and the ASCII dumpers of `Frame` and `STSFrame`.

Shared modules define the Java-level building blocks:

- `JavaLang` defines the 32-bit and 16-bit integers, UTF-16 strings as `seq<JChar>`, decimal parsing and printing, and Java's exceptions as error values.
- `Streams` defines the big-endian `DataInput` / `DataOutput` streams over bytes.
- `Wrappers` defines `Option` and `Result`.

A Java exception is an `Err` result of the operation that throws it. Java objects whose fields change become classes, and their methods name what they change in `modifies`. Loops are kept as loops, each proved against a specification function, and the properties are lemmas about those functions.

Collaborators whose code is not part of this model are parameters of the model. These are CARTs, sample sets, samples, path extractors, the phone-duration table, the audio system's file types, `Float.parseFloat`, `Locale.toString` and the mode-descriptor match and validation. Each is a type parameter, a function parameter, or an uninterpreted reader and writer pair that is required to read back what it writes.

## Model

| member | source | states |
|---|---|---|
| AudioPlayers.ArrayCopy | freetts/src/main/java/com/sun/speech/freetts/audio/SingleFileAudioPlayer.java:244-248 | `System.arraycopy` as the players use it: the destination range becomes the source range, taken as it was before the copy, and every other destination byte keeps its value |
| AudioPlayers.EightBit | freetts/src/main/java/com/sun/speech/freetts/audio/MultiFile8BitAudioPlayer.java:243-250 | the 8-bit form of 16-bit audio has half as many samples, and sample `j` is the signed first byte of pair `j` plus 128 |
| AudioPlayers.Convert16To8Bits | freetts/src/main/java/com/sun/speech/freetts/audio/MultiFile8BitAudioPlayer.java:243-250 | an even-length input gives a fresh array holding `EightBit` of it; an odd length runs off the output array and fails with an index error |
| AudioPlayers.MultiFile8BitAudioPlayer.constructor | freetts/src/main/java/com/sun/speech/freetts/audio/MultiFile8BitAudioPlayer.java:58-61 | stores the base name and the file type; the file counter starts at 0 and there is no buffer yet |
| AudioPlayers.MultiFile8BitAudioPlayer.FileNameCount | freetts/src/main/java/com/sun/speech/freetts/audio/MultiFile8BitAudioPlayer.java:164-165 | the counter can be read back from the name `baseName + fileCount + "." + extension` |
| AudioPlayers.MultiFile8BitAudioPlayer.FileNamesDiffer | freetts/src/main/java/com/sun/speech/freetts/audio/MultiFile8BitAudioPlayer.java:164-175 | two different counter values name two different files, so no utterance overwrites another while the counter does not wrap |
| AudioPlayers.MultiFile8BitAudioPlayer.Begin | freetts/src/main/java/com/sun/speech/freetts/audio/MultiFile8BitAudioPlayer.java:154-157 | a fresh zeroed buffer of `size / 2` bytes (Java division), written from index 0; a negative length fails and changes nothing; the counter is untouched |
| AudioPlayers.MultiFile8BitAudioPlayer.Write | freetts/src/main/java/com/sun/speech/freetts/audio/MultiFile8BitAudioPlayer.java:228-234 | on success the `size / 2` converted bytes starting at the unhalved `offset` are placed at the write position, the position advances by `size / 2`, no other buffer byte changes and the result is true; an odd input, a missing buffer or an out-of-range copy fails and leaves the buffer and position as they were |
| AudioPlayers.MultiFile8BitAudioPlayer.End | freetts/src/main/java/com/sun/speech/freetts/audio/MultiFile8BitAudioPlayer.java:160-176 | names the file after the counter before it is incremented, then increments it (as a 32-bit int) and answers true; no buffer is a null-pointer failure with no file named; a refused file type fails with the counter unchanged |
| AudioPlayers.SingleFileAudioPlayer.constructor | freetts/src/main/java/com/sun/speech/freetts/audio/SingleFileAudioPlayer.java:49-54 | the output name is `baseName + "." + extension`; no format, no buffer, no kept buffers and a zero byte count |
| AudioPlayers.SingleFileAudioPlayer.SetAudioFormat | freetts/src/main/java/com/sun/speech/freetts/audio/SingleFileAudioPlayer.java:76-88 | the format is stored (and `getAudioFormat` returns it); nothing else changes |
| AudioPlayers.SingleFileAudioPlayer.Begin | freetts/src/main/java/com/sun/speech/freetts/audio/SingleFileAudioPlayer.java:175-178 | a fresh zeroed buffer of exactly `size` bytes written from index 0; a negative size fails and changes nothing; the kept buffers and the total are untouched |
| AudioPlayers.SingleFileAudioPlayer.End | freetts/src/main/java/com/sun/speech/freetts/audio/SingleFileAudioPlayer.java:188-192 | appends the current buffer to the kept list and adds its full length, not the written part, to the total (as a 32-bit int); the invariant that the total counts the kept buffers is preserved |
| AudioPlayers.SingleFileAudioPlayer.Write | freetts/src/main/java/com/sun/speech/freetts/audio/SingleFileAudioPlayer.java:244-248 | on success `bytes[offset..offset + size]` is copied to the write position, which advances by `size`, no other buffer byte changes and the result is true; a missing buffer or an out-of-range copy fails and changes nothing |
| AudioPlayers.SingleFileAudioPlayer.WriteAll | freetts/src/main/java/com/sun/speech/freetts/audio/SingleFileAudioPlayer.java:230-232 | writing a whole array is writing it from offset 0 with its length |
| AudioPlayers.NullAudioPlayer.constructor | freetts/src/main/java/com/sun/speech/freetts/audio/NullAudioPlayer.java:28-32 | volume 1.0, no format, waiting for the first sound, both counters 0 |
| AudioPlayers.NullAudioPlayer.Write | freetts/src/main/java/com/sun/speech/freetts/audio/NullAudioPlayer.java:159-173 | adds `size` to the byte counter and 1 to the write counter (32-bit), clears the first-sound flag and answers true; volume and format are unchanged |
| AudioPlayers.NullAudioPlayer.WriteAll | freetts/src/main/java/com/sun/speech/freetts/audio/NullAudioPlayer.java:128-130 | the same as a write of the whole array |
| AudioPlayers.NullAudioPlayer.StartFirstSampleTimer | freetts/src/main/java/com/sun/speech/freetts/audio/NullAudioPlayer.java:179-182 | sets the first-sound flag and nothing else |
| AudioPlayers.NullAudioPlayer.SetVolume | freetts/src/main/java/com/sun/speech/freetts/audio/NullAudioPlayer.java:116-118 | keeps the volume exactly as given, without clamping; nothing else changes |
| AudioPlayers.NullAudioPlayer.SetAudioFormat | freetts/src/main/java/com/sun/speech/freetts/audio/NullAudioPlayer.java:47-49 | keeps the format; nothing else changes |
| AudioPlayers.CountersAfterWrites | freetts/src/main/java/com/sun/speech/freetts/audio/NullAudioPlayer.java:159-173 | after any run of writes from a fresh player the counters are the wrapped total size and the wrapped number of writes |
| ClusterUnitRecords.UnitBytes | en_us/src/main/java/com/sun/speech/freetts/clunits/ClusterUnitDatabase.java:954-961 | a dumped unit is always 24 bytes |
| ClusterUnitRecords.UnitItemDecodes | en_us/src/main/java/com/sun/speech/freetts/clunits/ClusterUnitDatabase.java:930-961 | the stream constructor reads back exactly the unit `dumpBinary` wrote, whatever follows it, and consumes its 24 bytes |
| ClusterUnitRecords.DumpUnit | en_us/src/main/java/com/sun/speech/freetts/clunits/ClusterUnitDatabase.java:954-961 | appends the six fields as big-endian ints in the order type, phone, start, end, prev, next |
| ClusterUnitRecords.ReadUnit | en_us/src/main/java/com/sun/speech/freetts/clunits/ClusterUnitDatabase.java:915-937 | reads the six ints in order and advances past them; a short stream fails with end of file |
| ClusterUnitRecords.UnitTypeBytes | en_us/src/main/java/com/sun/speech/freetts/clunits/ClusterUnitDatabase.java:1063-1067 | a dumped unit type is 10 bytes plus two per name character |
| ClusterUnitRecords.UnitTypeItemDecodes | en_us/src/main/java/com/sun/speech/freetts/clunits/ClusterUnitDatabase.java:1012-1067 | a unit type whose name fits the 16-bit length prefix reads back as itself, whatever follows it |
| ClusterUnitRecords.DumpUnitType | en_us/src/main/java/com/sun/speech/freetts/clunits/ClusterUnitDatabase.java:1063-1067 | appends the encoded name, then `start`, then `count` |
| ClusterUnitRecords.ReadUnitType | en_us/src/main/java/com/sun/speech/freetts/clunits/ClusterUnitDatabase.java:1012-1028 | reads the name, `start` and `count` in order and advances past them, or fails as the string reader or an int read does |
| ClusterUnitFormat.ShiftDivisor | en_us/src/main/java/com/sun/speech/freetts/clunits/ClusterUnitDatabase.java:395-401 | with Java's truncating division, `65536 / first` is 2 exactly for 21846..32768 and 4 exactly for 13108..16384 |
| ClusterUnitFormat.HeaderBytes | en_us/src/main/java/com/sun/speech/freetts/clunits/ClusterUnitDatabase.java:700-706 | the header (magic, version and five settings) is 28 bytes |
| ClusterUnitFormat.ParseHeader | en_us/src/main/java/com/sun/speech/freetts/clunits/ClusterUnitDatabase.java:608-621 | a header read succeeds only on a 28-byte prefix |
| ClusterUnitFormat.ParseHeaderBytes | en_us/src/main/java/com/sun/speech/freetts/clunits/ClusterUnitDatabase.java:84-85 | a written header, which starts with MAGIC 0xf0cacc1a and VERSION 0x1000, reads back as itself; the stored shift is read, not recomputed |
| ClusterUnitFormat.ParseArray | en_us/src/main/java/com/sun/speech/freetts/clunits/ClusterUnitDatabase.java:623-639 | a counted array read consumes at least its 4-byte count and never more than the input |
| ClusterUnitFormat.ParseArrayBytes | en_us/src/main/java/com/sun/speech/freetts/clunits/ClusterUnitDatabase.java:707-720 | a written array of records that each read back reads back as the same array |
| ClusterUnitFormat.CartEntryBytesDecode | en_us/src/main/java/com/sun/speech/freetts/clunits/ClusterUnitDatabase.java:646-647 | a CART entry (name, then the CART) reads back when its name fits the string codec and the CART reader reads back the CART |
| ClusterUnitFormat.CartEntryDecodes | en_us/src/main/java/com/sun/speech/freetts/clunits/ClusterUnitDatabase.java:724-730 | every entry with a short name reads back, given a CART reader that reads back what the writer writes |
| ClusterUnitFormat.ParseCounted | en_us/src/main/java/com/sun/speech/freetts/clunits/ClusterUnitDatabase.java:643-653 | the CART loop consumes at least its count and never more than the input |
| ClusterUnitFormat.ParseCountedBytes | en_us/src/main/java/com/sun/speech/freetts/clunits/ClusterUnitDatabase.java:724-730 | a written counted list reads back as itself |
| Streams.After | en_us/src/main/java/com/sun/speech/freetts/clunits/ClusterUnitDatabase.java:608-654 | counting `k` more consumed bytes keeps a success a success with the same value, and keeps an error the same error; the section reads of `loadBinary` and the record reads of `Diphone.loadBinary` both advance their results with it |
| ClusterUnitFormat.ParseImage | en_us/src/main/java/com/sun/speech/freetts/clunits/ClusterUnitDatabase.java:608-654 | `loadBinary` never consumes more bytes than the stream holds |
| ClusterUnitFormat.ParseLayout | en_us/src/main/java/com/sun/speech/freetts/clunits/ClusterUnitDatabase.java:608-654 | sections that each read back what their writer wrote compose: the whole layout reads back, and the reader stops exactly at its end |
| ClusterUnitFormat.WeightsRoundTrip | en_us/src/main/java/com/sun/speech/freetts/clunits/ClusterUnitDatabase.java:623-627 | the join weights read back when their number fits an int |
| ClusterUnitFormat.UnitsRoundTrip | en_us/src/main/java/com/sun/speech/freetts/clunits/ClusterUnitDatabase.java:629-633 | the units read back when their number fits an int |
| ClusterUnitFormat.UnitTypesRoundTrip | en_us/src/main/java/com/sun/speech/freetts/clunits/ClusterUnitDatabase.java:635-639 | the unit types read back when their number fits an int and every name fits the string codec |
| ClusterUnitFormat.SampleSetRoundTrip | en_us/src/main/java/com/sun/speech/freetts/clunits/ClusterUnitDatabase.java:640-641 | a sample-set section reads back when the SampleSet reader reads back what its writer writes |
| ClusterUnitFormat.CartsRoundTrip | en_us/src/main/java/com/sun/speech/freetts/clunits/ClusterUnitDatabase.java:643-653 | the CART section reads back when every name is short and the CART reader reads back what its writer writes |
| ClusterUnitFormat.ParseImageBytes | en_us/src/main/java/com/sun/speech/freetts/clunits/ClusterUnitDatabase.java:700-730 | `loadBinary` reads back exactly what `dumpBinary` wrote, whatever follows it, for every database whose arrays Java can hold and whose names fit the string codec, given collaborators that read back what they write |
| ClusterUnits.TypeSearch | en_us/src/main/java/com/sun/speech/freetts/clunits/ClusterUnitDatabase.java:172-190 | the binary search answers -1 or an index inside the searched range whose type has the name |
| ClusterUnits.TypeSearchFinds | en_us/src/main/java/com/sun/speech/freetts/clunits/ClusterUnitDatabase.java:178-188 | on types strictly sorted by name, a name present at `k` in the range is found at `k` |
| ClusterUnits.TypeIndexCorrect | en_us/src/main/java/com/sun/speech/freetts/clunits/ClusterUnitDatabase.java:172-190 | `getUnitTypeIndex` is -1 or the index of a type with that name, and on name-sorted types it is -1 exactly when no type has the name |
| ClusterUnits.UnitIndexOfType | en_us/src/main/java/com/sun/speech/freetts/clunits/ClusterUnitDatabase.java:199-211 | for a known type and an instance below its count (negative ones included) the unit index is `start + instance` as a 32-bit int |
| ClusterUnits.UnitIndexFallsBack | en_us/src/main/java/com/sun/speech/freetts/clunits/ClusterUnitDatabase.java:200-210 | an unknown type falls back to type 0, and an instance not below its count falls back to 0; with no types at all the lookup fails with an index error |
| ClusterUnits.UnitIndexNameOf | en_us/src/main/java/com/sun/speech/freetts/clunits/ClusterUnitDatabase.java:219-228 | the name `type_n` of instance `n` of a known type resolves, through the last '_', to that type's `start + n` |
| ClusterUnits.TreeAfterLoadText | en_us/src/main/java/com/sun/speech/freetts/clunits/ClusterUnitDatabase.java:154-162 | once the text loader has read any CART, `getTree` of any name yields a tree: the named one or the default; the default is the one already set, or else the CART of the first CART line the loader reaches |
| ClusterUnits.CartEntries | en_us/src/main/java/com/sun/speech/freetts/clunits/ClusterUnitDatabase.java:724-730 | the entries `dumpBinary` writes are the map's (name, CART) pairs in the given key order |
| ClusterUnits.CartMapOfEntries | en_us/src/main/java/com/sun/speech/freetts/clunits/ClusterUnitDatabase.java:643-653 | reading back the dumped entries of distinct names rebuilds the same map |
| ClusterUnits.DumpThenLoad | en_us/src/main/java/com/sun/speech/freetts/clunits/ClusterUnitDatabase.java:695-741 | the bytes `dumpBinary` writes are read back by `loadBinary` into a fresh database holding the same settings, weights, stored shift, units, unit types, sample sets and CARTs; only the default CART changes, to the first CART in the map's key order |
| ClusterUnits.ReadHeader | en_us/src/main/java/com/sun/speech/freetts/clunits/ClusterUnitDatabase.java:610-621 | reads magic, version and the five header ints as `ParseHeader` says: a bad magic or version is an error naming it |
| ClusterUnits.ReadLength | en_us/src/main/java/com/sun/speech/freetts/clunits/ClusterUnitDatabase.java:623-624 | an array length read: end of file on a short stream, a negative-size error on a negative count, otherwise the count |
| ClusterUnits.ReadJoinWeights | en_us/src/main/java/com/sun/speech/freetts/clunits/ClusterUnitDatabase.java:623-627 | reads the weight count and then that many ints, as `ParseArray` says, and advances past them |
| ClusterUnits.ReadUnits | en_us/src/main/java/com/sun/speech/freetts/clunits/ClusterUnitDatabase.java:629-633 | reads the unit count and then that many units, as `ParseArray` says |
| ClusterUnits.ReadUnitTypes | en_us/src/main/java/com/sun/speech/freetts/clunits/ClusterUnitDatabase.java:635-639 | reads the unit-type count and then that many unit types, as `ParseArray` says |
| ClusterUnits.ReadCartEntry | en_us/src/main/java/com/sun/speech/freetts/clunits/ClusterUnitDatabase.java:646-647 | reads one name and then one CART |
| ClusterUnits.ReadCartStep | en_us/src/main/java/com/sun/speech/freetts/clunits/ClusterUnitDatabase.java:646-652 | one pass: the entry read is the next one of the counted read, put into the map under its name, and the default CART if there was none; a failed read is the failure of the counted read |
| ClusterUnits.ReadCartLoop | en_us/src/main/java/com/sun/speech/freetts/clunits/ClusterUnitDatabase.java:645-653 | reads `numCarts` entries (none for a negative count) into a map, the first becoming the default if none is set |
| ClusterUnits.ReadSampleSets | en_us/src/main/java/com/sun/speech/freetts/clunits/ClusterUnitDatabase.java:640-641 | reads `sts` and then `mcep` |
| ClusterUnits.WriteWeights | en_us/src/main/java/com/sun/speech/freetts/clunits/ClusterUnitDatabase.java:707-710 | appends the weight count, then each weight |
| ClusterUnits.WriteUnits | en_us/src/main/java/com/sun/speech/freetts/clunits/ClusterUnitDatabase.java:712-715 | appends the unit count, then each unit in order |
| ClusterUnits.WriteUnitTypes | en_us/src/main/java/com/sun/speech/freetts/clunits/ClusterUnitDatabase.java:717-720 | appends the unit-type count, then each unit type in order |
| ClusterUnits.KeyOrderSize | en_us/src/main/java/com/sun/speech/freetts/clunits/ClusterUnitDatabase.java:724-725 | the count written, `cartMap.size()`, is the number of keys the loop then visits |
| ClusterUnits.WriteCarts | en_us/src/main/java/com/sun/speech/freetts/clunits/ClusterUnitDatabase.java:724-730 | appends the map's size, then each name and its CART in key order |
| ClusterUnits.WriteHeader | en_us/src/main/java/com/sun/speech/freetts/clunits/ClusterUnitDatabase.java:700-706 | appends magic, version and the five settings, with the stored shift |
| ClusterUnits.ClusterUnitDatabase.constructor | en_us/src/main/java/com/sun/speech/freetts/clunits/ClusterUnitDatabase.java:63-82 | every field at its Java default, before a loader runs |
| ClusterUnits.ClusterUnitDatabase.GetTree | en_us/src/main/java/com/sun/speech/freetts/clunits/ClusterUnitDatabase.java:154-162 | the CART of that name, or the default CART when the map has none |
| ClusterUnits.ClusterUnitDatabase.GetUnitTypeIndex | en_us/src/main/java/com/sun/speech/freetts/clunits/ClusterUnitDatabase.java:172-190 | the loop computes the binary search `TypeIndex`, so it is -1 or an index of a type with that name |
| ClusterUnits.ClusterUnitDatabase.GetUnitIndex | en_us/src/main/java/com/sun/speech/freetts/clunits/ClusterUnitDatabase.java:199-211 | the lenient unit index `UnitIndex`, with its fallbacks |
| ClusterUnits.ClusterUnitDatabase.GetUnitIndexName | en_us/src/main/java/com/sun/speech/freetts/clunits/ClusterUnitDatabase.java:219-228 | -1 for a name without '_', a number-format error for a bad suffix, otherwise the unit index of (prefix, suffix) |
| ClusterUnits.ClusterUnitDatabase.IsUnitTypeEqual | en_us/src/main/java/com/sun/speech/freetts/clunits/ClusterUnitDatabase.java:266-272 | true exactly when both units have the same type index; a unit out of range is an index error |
| ClusterUnits.ClusterUnitDatabase.CalcJoinWeightShift | en_us/src/main/java/com/sun/speech/freetts/clunits/ClusterUnitDatabase.java:387-402 | the loop with its early return computes `JoinWeightShift`: 0 unless all weights equal the first, then 1 or 2 by the divisor and 0 otherwise; no weights is an index error, a zero first weight a division error |
| ClusterUnits.ClusterUnitDatabase.ParseAndAdd | en_us/src/main/java/com/sun/speech/freetts/clunits/ClusterUnitDatabase.java:450-524 | one tagged line changes the loader's state as `ParseLine` says and reports how many following lines its payload used, or fails as it says |
| ClusterUnits.ClusterUnitDatabase.ParseSetting | en_us/src/main/java/com/sun/speech/freetts/clunits/ClusterUnitDatabase.java:455-466 | each of the four settings is set from one int argument |
| ClusterUnits.ClusterUnitDatabase.ParseSampleSet | en_us/src/main/java/com/sun/speech/freetts/clunits/ClusterUnitDatabase.java:477-485 | a set named STS becomes `sts`, any other name `mcep` |
| ClusterUnits.ClusterUnitDatabase.ParseUnit | en_us/src/main/java/com/sun/speech/freetts/clunits/ClusterUnitDatabase.java:486-496 | six ints appended as one unit |
| ClusterUnits.ClusterUnitDatabase.ParseCart | en_us/src/main/java/com/sun/speech/freetts/clunits/ClusterUnitDatabase.java:497-507 | the CART is stored under its name and becomes the default if there is none |
| ClusterUnits.ClusterUnitDatabase.ParseUnitType | en_us/src/main/java/com/sun/speech/freetts/clunits/ClusterUnitDatabase.java:508-515 | a name and two ints appended as one unit type |
| ClusterUnits.ClusterUnitDatabase.ParseJoinWeights | en_us/src/main/java/com/sun/speech/freetts/clunits/ClusterUnitDatabase.java:467-476 | the count, that many weights, then the shift recomputed from them |
| ClusterUnits.ClusterUnitDatabase.LoadLine | en_us/src/main/java/com/sun/speech/freetts/clunits/ClusterUnitDatabase.java:425-428 | one pass of the loop: a "***" line is skipped, any other is parsed |
| ClusterUnits.ClusterUnitDatabase.LoadText | en_us/src/main/java/com/sun/speech/freetts/clunits/ClusterUnitDatabase.java:409-441 | the database ends in the state `LoadTextImage` gives: no stream is an error, otherwise the file's units and unit types in file order, its settings and CARTs over the old ones |
| ClusterUnits.ClusterUnitDatabase.ReadCarts | en_us/src/main/java/com/sun/speech/freetts/clunits/ClusterUnitDatabase.java:643-653 | the CART section replaces the map with the entries read, and the first one becomes the default unless one is set |
| ClusterUnits.ClusterUnitDatabase.LoadBinary | en_us/src/main/java/com/sun/speech/freetts/clunits/ClusterUnitDatabase.java:608-654 | the database ends in the state `Installed(old, image)` for the image `ParseImage` reads, and the stream advances past it; a failed read is its error |
| ClusterUnits.ClusterUnitDatabase.StoreHeader | en_us/src/main/java/com/sun/speech/freetts/clunits/ClusterUnitDatabase.java:617-621 | the five header settings are stored and nothing else changes |
| ClusterUnits.ClusterUnitDatabase.DumpBinary | en_us/src/main/java/com/sun/speech/freetts/clunits/ClusterUnitDatabase.java:695-741 | writes exactly `ImageBytes` of the database; a null weights, `sts` or `mcep` fails with a null-pointer error after what was written before it |
| ClusterUnits.InstalledBinaryOf | en_us/src/main/java/com/sun/speech/freetts/clunits/ClusterUnitDatabase.java:608-654 | installing the image that `dumpBinary` writes into an empty database gives back the database's fields, with the first CART written becoming the default CART |
| ClusterUnits.SampleSetPair | en_us/src/main/java/com/sun/speech/freetts/clunits/ClusterUnitDatabase.java:640-641 | reading the two sample sets never consumes more than the stream holds |
| ClusterUnits.SomeBinaryReaders | en_us/src/main/java/com/sun/speech/freetts/clunits/ClusterUnitDatabase.java:608-654 | there are readers with that property, and the image parse is the header-first parse with them |
| ClusterUnits.WriteCartEntries | en_us/src/main/java/com/sun/speech/freetts/clunits/ClusterUnitDatabase.java:725-730 | the loop writes each CART's name and then the CART, in key order |
| ClusterUnits.DumpedBytes | en_us/src/main/java/com/sun/speech/freetts/clunits/ClusterUnitDatabase.java:700-730 | the dumped image is the header, the join weights, the units and the unit types (each with its count), the two sample sets, then the counted CART entries |
| ClusterUnits.ClusterUnitDatabase.LoadFromHeader | en_us/src/main/java/com/sun/speech/freetts/clunits/ClusterUnitDatabase.java:610-621 | reads the magic, the version and the five header ints and goes on with the weights; the database matches `ParseFromHeader`, or the load fails with its error |
| ClusterUnits.ClusterUnitDatabase.LoadFromJoinWeights | en_us/src/main/java/com/sun/speech/freetts/clunits/ClusterUnitDatabase.java:623-627 | reads the counted join weights and goes on with the units, as `ParseFromJoinWeights` states |
| ClusterUnits.ClusterUnitDatabase.LoadFromUnits | en_us/src/main/java/com/sun/speech/freetts/clunits/ClusterUnitDatabase.java:629-633 | reads the counted units and goes on with the unit types, as `ParseFromUnits` states |
| ClusterUnits.ClusterUnitDatabase.LoadFromUnitTypes | en_us/src/main/java/com/sun/speech/freetts/clunits/ClusterUnitDatabase.java:635-639 | reads the counted unit types and goes on with the tail, as `ParseFromUnitTypes` states |
| ClusterUnits.ClusterUnitDatabase.LoadTail | en_us/src/main/java/com/sun/speech/freetts/clunits/ClusterUnitDatabase.java:640-653 | reads the two sample sets and the CARTs, as `ParseFromSampleSets` states |
| ClusterUnitFormat.ParseFromHeader | en_us/src/main/java/com/sun/speech/freetts/clunits/ClusterUnitDatabase.java:610-654 | a load from the header never consumes more than the stream holds |
| ClusterUnitFormat.ParseFromJoinWeights | en_us/src/main/java/com/sun/speech/freetts/clunits/ClusterUnitDatabase.java:623-654 | a load from the weights never consumes more than the stream holds |
| ClusterUnitFormat.ParseFromUnits | en_us/src/main/java/com/sun/speech/freetts/clunits/ClusterUnitDatabase.java:629-654 | a load from the units never consumes more than the stream holds |
| ClusterUnitFormat.ParseFromUnitTypes | en_us/src/main/java/com/sun/speech/freetts/clunits/ClusterUnitDatabase.java:635-654 | a load from the unit types never consumes more than the stream holds |
| ClusterUnitFormat.ParseFromSampleSets | en_us/src/main/java/com/sun/speech/freetts/clunits/ClusterUnitDatabase.java:640-654 | a load of the tail never consumes more than the stream holds |
| ClusterUnitFormat.HeaderThen | en_us/src/main/java/com/sun/speech/freetts/clunits/ClusterUnitDatabase.java:610-627 | a header read followed by a load of the rest is the load from the header |
| ClusterUnitFormat.WeightsThen | en_us/src/main/java/com/sun/speech/freetts/clunits/ClusterUnitDatabase.java:623-633 | weights read followed by a load of the rest is the load from the weights |
| ClusterUnitFormat.UnitsThen | en_us/src/main/java/com/sun/speech/freetts/clunits/ClusterUnitDatabase.java:629-639 | units read followed by a load of the rest is the load from the units |
| ClusterUnitFormat.UnitTypesThen | en_us/src/main/java/com/sun/speech/freetts/clunits/ClusterUnitDatabase.java:635-641 | unit types read followed by a load of the tail is the load from the unit types |
| ClusterUnitFormat.TailThen | en_us/src/main/java/com/sun/speech/freetts/clunits/ClusterUnitDatabase.java:640-653 | two sample sets and the CARTs read one after another complete the image |
| ClusterUnitFormat.ReadBack | en_us/src/main/java/com/sun/speech/freetts/clunits/ClusterUnitDatabase.java:617-653 | a section reader that decodes its writer reads a written section back, whatever follows it |
| ClusterUnitFormat.ParseSectionsParts | en_us/src/main/java/com/sun/speech/freetts/clunits/ClusterUnitDatabase.java:608-654 | the seven sections read in turn make up the whole load, consuming their total length |
| ClusterUnitFormat.HeaderRoundTrip | en_us/src/main/java/com/sun/speech/freetts/clunits/ClusterUnitDatabase.java:700-706 | the header as written reads back as the same header |
| ClusterUnitFormat.ParseCartsBytes | en_us/src/main/java/com/sun/speech/freetts/clunits/ClusterUnitDatabase.java:643-653 | the counted CART entries as written read back as the same entries, consuming exactly what was written |
| ClusterUnitText.TagIsToken | en_us/src/main/java/com/sun/speech/freetts/clunits/ClusterUnitDatabase.java:467-508 | each of the UNITS, UNIT_TYPE and JOIN_WEIGHTS tags is a whole token and does not start a comment |
| ClusterUnitText.LoadLinesStep | en_us/src/main/java/com/sun/speech/freetts/clunits/ClusterUnitDatabase.java:424-429 | a line that is not a comment is parsed, and loading goes on after the lines it consumed |
| ClusterUnitText.NotComment | en_us/src/main/java/com/sun/speech/freetts/clunits/ClusterUnitDatabase.java:425-426 | a line starting with a tag is not a comment line |
| ClusterUnitText.IntArg | en_us/src/main/java/com/sun/speech/freetts/clunits/ClusterUnitDatabase.java:456 | `Integer.parseInt(tokenizer.nextToken())`: succeeds exactly when the token exists and is a Java int, giving its value; a missing token is a no-such-element error |
| ClusterUnitText.IntArgs | en_us/src/main/java/com/sun/speech/freetts/clunits/ClusterUnitDatabase.java:470-472 | `n` int arguments read in order give exactly `n` values |
| ClusterUnitText.IntArgsStops | en_us/src/main/java/com/sun/speech/freetts/clunits/ClusterUnitDatabase.java:519-523 | the first bad argument decides the error: reading further arguments fails the same way |
| ClusterUnitText.ParseLine | en_us/src/main/java/com/sun/speech/freetts/clunits/ClusterUnitDatabase.java:450-524 | a line's payload never claims more lines than follow it |
| ClusterUnitText.ParseTagged | en_us/src/main/java/com/sun/speech/freetts/clunits/ClusterUnitDatabase.java:454-518 | the same bound once the tag is split off |
| ClusterUnitText.LineAt | en_us/src/main/java/com/sun/speech/freetts/clunits/ClusterUnitDatabase.java:424-428 | each pass of the loader moves strictly forward and stays inside the file |
| ClusterUnitText.LoadLinesAt | en_us/src/main/java/com/sun/speech/freetts/clunits/ClusterUnitDatabase.java:424-429 | loading from line `i` is reading that line (skipping a comment) and then loading from the next unread line; an error stops it |
| ClusterUnitText.UnknownTagRejected | en_us/src/main/java/com/sun/speech/freetts/clunits/ClusterUnitDatabase.java:516-517 | a line whose first token is no known tag stops loading with an error naming the tag and the line |
| ClusterUnitText.LoadLinesExtends | en_us/src/main/java/com/sun/speech/freetts/clunits/ClusterUnitDatabase.java:494-513 | loading only appends units and unit types, only adds CART names, keeps a default CART once set, and sets one whenever a CART was read |
| ClusterUnitText.DefaultIsFirstCart | en_us/src/main/java/com/sun/speech/freetts/clunits/ClusterUnitDatabase.java:494-513 | loading into a state without a default CART leaves as the default exactly the CART the reader returns for the first CART line reached |
| ClusterUnitText.Lines | en_us/src/main/java/com/sun/speech/freetts/clunits/ClusterUnitDatabase.java:424-428 | the rendered lines of some records, one per record in order |
| ClusterUnitText.IntStringsAreTokens | en_us/src/main/java/com/sun/speech/freetts/clunits/ClusterUnitDatabase.java:452 | the decimal form of any int is one token of the space tokenizer |
| ClusterUnitText.ParseUnitLine | en_us/src/main/java/com/sun/speech/freetts/clunits/ClusterUnitDatabase.java:486-496 | a UNITS line appends exactly its unit and uses no following line |
| ClusterUnitText.UnitLineTokens | en_us/src/main/java/com/sun/speech/freetts/clunits/ClusterUnitDatabase.java:452-453 | a UNITS line splits into the tag and the six numbers |
| ClusterUnitText.ParseUnitTypeLine | en_us/src/main/java/com/sun/speech/freetts/clunits/ClusterUnitDatabase.java:508-515 | a UNIT_TYPE line whose name is one token appends exactly its unit type |
| ClusterUnitText.IntArgsOfStrings | en_us/src/main/java/com/sun/speech/freetts/clunits/ClusterUnitDatabase.java:470-472 | ints rendered as arguments are read back in order |
| ClusterUnitText.ParseWeightsLine | en_us/src/main/java/com/sun/speech/freetts/clunits/ClusterUnitDatabase.java:467-476 | a JOIN_WEIGHTS line sets the weights and the shift recomputed from them: the text form stores no shift |
| ClusterUnitText.WeightsLineArgs | en_us/src/main/java/com/sun/speech/freetts/clunits/ClusterUnitDatabase.java:468-472 | a JOIN_WEIGHTS line splits into the tag, the count and each weight |
| ClusterUnitText.LoadRecordLines | en_us/src/main/java/com/sun/speech/freetts/clunits/ClusterUnitDatabase.java:424-429 | lines that each add one record are loaded one record after another |
| ClusterUnitText.AddAllUnits | en_us/src/main/java/com/sun/speech/freetts/clunits/ClusterUnitDatabase.java:494 | adding units one by one appends them in order |
| ClusterUnitText.AddAllUnitTypes | en_us/src/main/java/com/sun/speech/freetts/clunits/ClusterUnitDatabase.java:513 | adding unit types one by one appends them in order |
| ClusterUnitText.LoadUnitLines | en_us/src/main/java/com/sun/speech/freetts/clunits/ClusterUnitDatabase.java:432 | the UNITS lines of some units load those units in file order, without sorting |
| ClusterUnitText.LoadUnitTypeLines | en_us/src/main/java/com/sun/speech/freetts/clunits/ClusterUnitDatabase.java:435 | the UNIT_TYPE lines of some unit types load them in file order, without sorting |
| ClusterUnitText.LoadCommentLines | en_us/src/main/java/com/sun/speech/freetts/clunits/ClusterUnitDatabase.java:425 | "***" lines are skipped wherever they stand |
| Utilities.Pad | freetts/src/main/java/com/sun/speech/freetts/util/Utilities.java:40-46 | `max(padding, 0)` characters, all spaces |
| Utilities.PadTo | freetts/src/main/java/com/sun/speech/freetts/util/Utilities.java:57-66 | exactly `minLength` characters: the string followed by spaces when shorter, its prefix when longer, itself when equal; a negative length fails as `substring` does |
| Utilities.DeleteChar | freetts/src/main/java/com/sun/speech/freetts/util/Utilities.java:75-83 | the loop builds the string without any `charToDelete` |
| Utilities.WithoutAppend | freetts/src/main/java/com/sun/speech/freetts/util/Utilities.java:77-81 | deletion splits over concatenation, so the kept characters keep their order |
| Utilities.WithoutAbsent | freetts/src/main/java/com/sun/speech/freetts/util/Utilities.java:75-83 | deleting a character that is not there returns the string unchanged |
| Utilities.WithoutCounts | freetts/src/main/java/com/sun/speech/freetts/util/Utilities.java:75-83 | the result has every other character with its count, no `charToDelete`, and length `|s|` minus the number of deleted characters |
| Utilities.StringBytes | freetts/src/main/java/com/sun/speech/freetts/util/Utilities.java:123-128 | a written string takes two bytes of length and two per character |
| Utilities.ParseString | freetts/src/main/java/com/sun/speech/freetts/util/Utilities.java:137-144 | a read string consumes its two length bytes and two bytes per character it returns |
| Utilities.StringBytesOfParseString | freetts/src/main/java/com/sun/speech/freetts/util/Utilities.java:137-144 | whatever `getString` accepts is exactly what `outString` writes for the string it returns |
| Utilities.ParseStringBytes | freetts/src/main/java/com/sun/speech/freetts/util/Utilities.java:123-143 | `getString(outString(s))` gives back `s` and consumes exactly what was written precisely when `|s| <= 32767`; longer lengths wrap through the signed short |
| Utilities.Dump | freetts/src/main/java/com/sun/speech/freetts/util/Utilities.java:93-96 | one line: the padding, then the text |
| Utilities.OutString | freetts/src/main/java/com/sun/speech/freetts/util/Utilities.java:123-128 | appends the length cast to a short, then each character as two big-endian bytes |
| Utilities.GetString | freetts/src/main/java/com/sun/speech/freetts/util/Utilities.java:137-160 | reads as `ParseString` says and advances past what it read; a negative length fails as the array allocation does, a short stream with end of file |
| Diphones.ResidualSumAppend | freetts/src/main/java/com/sun/speech/freetts/diphone/Diphone.java:52-57 | the residual sum of two runs of samples is the sum of their sums |
| Diphones.Build | freetts/src/main/java/com/sun/speech/freetts/diphone/Diphone.java:45-58 | the constructor succeeds exactly when `0 <= midPoint <= |samples|` (otherwise a loop indexes outside the array), keeps name, mid point and samples, and sets the two part sizes to the 32-bit sums of the residual sizes before and from the mid point |
| Diphones.NewDiphone | freetts/src/main/java/com/sun/speech/freetts/diphone/Diphone.java:45-58 | the two accumulating loops compute `Build` |
| Diphones.SumRange | freetts/src/main/java/com/sun/speech/freetts/diphone/Diphone.java:52-57 | one accumulating loop: 0 for an empty range, an index error for a range leaving the array, otherwise the wrapped residual sum of the range |
| Diphones.SplitSum | freetts/src/main/java/com/sun/speech/freetts/diphone/Diphone.java:52-57 | wrapped sums of two parts add up, wrapped, to the wrapped sum of the whole |
| Diphones.UnitSizesAddUp | freetts/src/main/java/com/sun/speech/freetts/diphone/Diphone.java:156-162 | `getUnitSize(1) + getUnitSize(2)` is the total residual count of the diphone, as a 32-bit int |
| Diphones.OffsetIsSum | freetts/src/main/java/com/sun/speech/freetts/diphone/Diphone.java:137-144 | the running `iSize` at sample `j` is the wrapped residual sum from the part's start to `j` |
| Diphones.FirstStop | freetts/src/main/java/com/sun/speech/freetts/diphone/Diphone.java:137-145 | the search stops, if at all, inside the searched range |
| Diphones.SearchStep | freetts/src/main/java/com/sun/speech/freetts/diphone/Diphone.java:138-144 | one pass of the loop: the new offset is the old one plus the sample's residual size, and the search stops here exactly when `|u - iSize| < |u - nSize|` |
| Diphones.NearestIndex | freetts/src/main/java/com/sun/speech/freetts/diphone/Diphone.java:131-147 | the index found is a sample of the diphone |
| Diphones.NearestSample | freetts/src/main/java/com/sun/speech/freetts/diphone/Diphone.java:131-147 | the loop returns the sample at `NearestIndex`, or the index error Java throws |
| Diphones.FirstStopIsFirst | freetts/src/main/java/com/sun/speech/freetts/diphone/Diphone.java:137-145 | the sample found is the first whose start offset is strictly closer to `uIndex` than its end offset; none found means no sample in the range is |
| Diphones.NearestIsFirstStop | freetts/src/main/java/com/sun/speech/freetts/diphone/Diphone.java:131-147 | the result lies in the requested half (`[0, midPoint)` for part 1, `[midPoint, len)` otherwise) and is the first closer sample there, or else the last sample of that half; an empty range ending at 0 is an index error |
| Diphones.NearestOfEmptySecondPart | freetts/src/main/java/com/sun/speech/freetts/diphone/Diphone.java:146 | with an empty second half, the fallback `samples[end - 1]` for part 2 is the last sample of the first half |
| Diphones.Compare | freetts/src/main/java/com/sun/speech/freetts/diphone/Diphone.java:225-244 | true exactly when names, mid points and sample counts are equal and the samples compare pairwise |
| Diphones.SameDiphoneReflexive | freetts/src/main/java/com/sun/speech/freetts/diphone/Diphone.java:225-244 | a diphone compares equal to itself when the sample comparison is reflexive |
| Diphones.NameField | freetts/src/main/java/com/sun/speech/freetts/diphone/Diphone.java:203-208 | the name field is exactly 8 characters |
| Diphones.HeadBytes | freetts/src/main/java/com/sun/speech/freetts/diphone/Diphone.java:205-210 | magic, name field, mid point and count take 28 bytes |
| Diphones.DumpDiphone | freetts/src/main/java/com/sun/speech/freetts/diphone/Diphone.java:202-215 | appends MAGIC, the 8-character space-padded and cut name, the mid point, the sample count, then each sample |
| Diphones.WriteNameField | freetts/src/main/java/com/sun/speech/freetts/diphone/Diphone.java:203-208 | writes the first 8 characters of the name followed by 8 spaces |
| Diphones.NonWhiteNext | freetts/src/main/java/com/sun/speech/freetts/diphone/Diphone.java:333-338 | one more character read is appended unless it is whitespace |
| Diphones.FieldChars | freetts/src/main/java/com/sun/speech/freetts/diphone/Diphone.java:333-338 | a name field read gives 8 characters |
| Diphones.ParseDiphone | freetts/src/main/java/com/sun/speech/freetts/diphone/Diphone.java:305-348 | a load never consumes more bytes than the stream holds |
| Diphones.ReadNameField | freetts/src/main/java/com/sun/speech/freetts/diphone/Diphone.java:313-319 | reads 8 characters and keeps the ones that are not whitespace; a short stream gives nothing |
| Diphones.LoadAlias | freetts/src/main/java/com/sun/speech/freetts/diphone/Diphone.java:312-328 | after ALIAS_MAGIC, two name fields give an alias of (name, original name); a short stream is end of file |
| Diphones.LoadPlain | freetts/src/main/java/com/sun/speech/freetts/diphone/Diphone.java:333-347 | after MAGIC, reads the name field, mid point, count and samples as `PlainAfterMagic` says |
| Diphones.LoadSamples | freetts/src/main/java/com/sun/speech/freetts/diphone/Diphone.java:343-347 | reads `count` samples (a negative count fails as the allocation does) and builds the diphone |
| Diphones.LoadDiphone | freetts/src/main/java/com/sun/speech/freetts/diphone/Diphone.java:305-348 | `loadBinary(dis)` reads as `ParseDiphone` says and advances past what it read |
| Diphones.NonWhiteAppend | freetts/src/main/java/com/sun/speech/freetts/diphone/Diphone.java:333-338 | dropping whitespace splits over concatenation |
| Diphones.NameFieldRoundTrip | freetts/src/main/java/com/sun/speech/freetts/diphone/Diphone.java:203-208 | a name of at most 8 characters with no whitespace or control characters is read back from its field unchanged |
| Diphones.SamplesRoundTrip | freetts/src/main/java/com/sun/speech/freetts/diphone/Diphone.java:340-347 | the written sample count and samples read back as the same diphone, given a sample reader that reads back what the writer writes |
| Diphones.LoadDumpedDiphone | freetts/src/main/java/com/sun/speech/freetts/diphone/Diphone.java:202-215 | `loadBinary(dumpBinary(d))` gives back `d` with its name as the name field reads back, and consumes exactly what was written |
| Diphones.LoadDumpedStoredName | freetts/src/main/java/com/sun/speech/freetts/diphone/Diphone.java:305-348 | for a name of at most 8 non-whitespace characters the round trip gives back `d` itself |
| Diphones.LoadAliasRecord | freetts/src/main/java/com/sun/speech/freetts/diphone/Diphone.java:312-328 | an ALIAS_MAGIC record of two name fields reads as the alias of those names |
| Diphones.BadMagicRejected | freetts/src/main/java/com/sun/speech/freetts/diphone/Diphone.java:329-331 | a leading int that is neither MAGIC nor ALIAS_MAGIC is a fatal error |
| Diphones.ResidualSumNext | freetts/src/main/java/com/sun/speech/freetts/diphone/Diphone.java:52-57 | adding the next sample's size to the wrapped running sum is the wrapped sum one sample further |
| Diphones.WriteHead | freetts/src/main/java/com/sun/speech/freetts/diphone/Diphone.java:203-210 | writes the magic, the name field, the mid point and the sample count |
| Diphones.NameStep | freetts/src/main/java/com/sun/speech/freetts/diphone/Diphone.java:333-338 | one more character read extends the name built so far as the loop does |
| Diphones.PlainAfterMagic | freetts/src/main/java/com/sun/speech/freetts/diphone/Diphone.java:333-347 | a plain record after the magic never consumes more than the stream holds |
| Diphones.SamplesThen | freetts/src/main/java/com/sun/speech/freetts/diphone/Diphone.java:343-347 | reading the samples never consumes more than the stream holds |
| Diphones.MagicThen | freetts/src/main/java/com/sun/speech/freetts/diphone/Diphone.java:311-347 | a record starting with MAGIC is the plain record after it, four bytes further on |
| Diphones.FieldsThen | freetts/src/main/java/com/sun/speech/freetts/diphone/Diphone.java:333-341 | the name field and the two ints are followed by the samples, 8 + 16 bytes further on |
| Diphones.Renamed | freetts/src/main/java/com/sun/speech/freetts/diphone/Diphone.java:45-58 | renaming a built diphone changes only its name |
| Durations.LocalStretch | freetts/src/main/java/com/sun/speech/freetts/cart/Durator.java:97-101 | a local stretch of 0 means the voice's stretch; any other local stretch is multiplied by it |
| Durations.Ends | freetts/src/main/java/com/sun/speech/freetts/cart/Durator.java:104 | there is one cumulative end time per segment duration |
| Durations.EndsAreSums | freetts/src/main/java/com/sun/speech/freetts/cart/Durator.java:82-104 | the end time of segment `k` is the sum of the durations of segments 0 to `k`, starting from 0 |
| Durations.SumPrefixGrows | freetts/src/main/java/com/sun/speech/freetts/cart/Durator.java:104 | with non-negative durations, a longer prefix never sums to less |
| Durations.EndsAreMonotone | freetts/src/main/java/com/sun/speech/freetts/cart/Durator.java:104-105 | with non-negative durations, later segments never end earlier |
| Durations.Run | freetts/src/main/java/com/sun/speech/freetts/cart/Durator.java:89-106 | the first `n` segments either all get a duration, or the walk stops with an error after fewer |
| Durations.Steps | freetts/src/main/java/com/sun/speech/freetts/cart/Durator.java:91-103 | the attempt for every segment is its own `SegmentDuration` |
| Durations.RunNext | freetts/src/main/java/com/sun/speech/freetts/cart/Durator.java:89-106 | one more segment of the walk: a duration is appended, or the walk stops with that segment's error |
| Durations.SumNext | freetts/src/main/java/com/sun/speech/freetts/cart/Durator.java:104 | a new duration ends at the previous end plus itself |
| Durations.RunDurations | freetts/src/main/java/com/sun/speech/freetts/cart/Durator.java:89-106 | every duration the walk kept is the successful attempt of its segment, and an error is the attempt of the segment after the kept ones |
| Durations.RunStopped | freetts/src/main/java/com/sun/speech/freetts/cart/Durator.java:89-106 | once the walk has stopped with an error, later segments change nothing |
| Durations.Scores | freetts/src/main/java/com/sun/speech/freetts/cart/Durator.java:91-95 | one CART score (or local stretch) per segment, in segment order |
| Durations.AnnotateNext | freetts/src/main/java/com/sun/speech/freetts/cart/Durator.java:104-105 | storing one more end time extends the annotation by that segment only |
| Durations.ProgressUnchanged | freetts/src/main/java/com/sun/speech/freetts/cart/Durator.java:89-106 | a segment the walk has not reached still has its old features |
| Durations.ProgressNext | freetts/src/main/java/com/sun/speech/freetts/cart/Durator.java:103-105 | processing one segment successfully stores its cumulative end and leaves the rest alone |
| Durations.StepOf | freetts/src/main/java/com/sun/speech/freetts/cart/Durator.java:91-103 | the attempt at index `i` is the duration of segment `i` |
| Durations.Finished | freetts/src/main/java/com/sun/speech/freetts/cart/Durator.java:89-106 | the walk's final state satisfies `Processed`: segments before a failure carry their end times, the rest are untouched |
| Durations.Durator.ProcessUtterance | freetts/src/main/java/com/sun/speech/freetts/cart/Durator.java:77-107 | `processUtterance`: every segment gets feature "end" = the cumulative sum of the stretched durations, in segment order; at the first segment whose "name" is not a string, whose local stretch does not parse, or whose name has no duration statistics, the exception leaves later segments unchanged |
| Durations.Durator.Step | freetts/src/main/java/com/sun/speech/freetts/cart/Durator.java:90-105 | one loop turn keeps the progress invariant, or stops with the error it met |
| Durations.Durator.AnnotateSegment | freetts/src/main/java/com/sun/speech/freetts/cart/Durator.java:91-105 | the segment gets "end" = end + its duration, or is unchanged when the duration fails |
| Durations.Durator.Duration | freetts/src/main/java/com/sun/speech/freetts/cart/Durator.java:91-103 | the duration of one segment as `SegmentDuration` states it, or its error |
| Features.Erase | freetts/src/main/java/com/sun/speech/freetts/FeatureSetImpl.java:57-58 | removing a key takes it out of the key order and keeps every other key, in order and without repeats |
| Features.LinkedMap.Get | freetts/src/main/java/com/sun/speech/freetts/FeatureSetImpl.java:110-111 | an absent name gives null |
| Features.LinkedMap.Put | freetts/src/main/java/com/sun/speech/freetts/FeatureSetImpl.java:154-155 | the name now maps to the value, every other name is unchanged, and a new name goes to the end of the key order while an existing one keeps its place |
| Features.LinkedMap.Remove | freetts/src/main/java/com/sun/speech/freetts/FeatureSetImpl.java:57-58 | the name is absent and gives null, and every other name is unchanged |
| Features.UpdatesKeepValid | freetts/src/main/java/com/sun/speech/freetts/FeatureSetImpl.java:30-37 | putting and removing keep the keys and the map in step, without repeated keys |
| Features.TypedRoundTrip | freetts/src/main/java/com/sun/speech/freetts/FeatureSetImpl.java:71-145 | a typed setter's value comes back from its typed getter, and the other typed getters fail with ClassCastException |
| Features.AbsentIsNull | freetts/src/main/java/com/sun/speech/freetts/FeatureSetImpl.java:110-111 | an absent feature reads as null, also through `getString` |
| Features.AsString | freetts/src/main/java/com/sun/speech/freetts/FeatureSetImpl.java:71-73 | the cast to String succeeds exactly for null and strings |
| Features.AsInt | freetts/src/main/java/com/sun/speech/freetts/FeatureSetImpl.java:84-86 | unboxing to int succeeds exactly for Integer values; null gives NullPointerException and other values ClassCastException |
| Features.AsFloat | freetts/src/main/java/com/sun/speech/freetts/FeatureSetImpl.java:98-100 | unboxing to float succeeds exactly for Float values; null gives NullPointerException and other values ClassCastException |
| Features.Reverse | freetts/src/main/java/com/sun/speech/freetts/FeatureSetImpl.java:186 | the key list in reverse order |
| Features.Shown | freetts/src/main/java/com/sun/speech/freetts/FeatureSetImpl.java:189-193 | the keys that are dumped: all of them when `showName`, otherwise all but "name" |
| Features.EntriesStep | freetts/src/main/java/com/sun/speech/freetts/FeatureSetImpl.java:189-204 | each key in turn contributes its lines, except "name" when it is hidden |
| Features.FeatureSet.constructor | freetts/src/main/java/com/sun/speech/freetts/FeatureSetImpl.java:36-38 | a new feature set is empty |
| Features.FeatureSet.Remove | freetts/src/main/java/com/sun/speech/freetts/FeatureSetImpl.java:57-59 | the name is no longer present and every other feature is unchanged |
| Features.FeatureSet.SetObject | freetts/src/main/java/com/sun/speech/freetts/FeatureSetImpl.java:154-156 | the name is present with that value and every other feature is unchanged |
| Features.FeatureSet.SetString | freetts/src/main/java/com/sun/speech/freetts/FeatureSetImpl.java:143-145 | stores the string as `setObject` does |
| Features.FeatureSet.SetInt | freetts/src/main/java/com/sun/speech/freetts/FeatureSetImpl.java:121-123 | stores the boxed int as `setObject` does |
| Features.FeatureSet.SetFloat | freetts/src/main/java/com/sun/speech/freetts/FeatureSetImpl.java:132-134 | stores the boxed float as `setObject` does |
| Features.DumpEntry | freetts/src/main/java/com/sun/speech/freetts/FeatureSetImpl.java:195-203 | one entry: a dumpable value writes its own lines at pad + 4, any other value the line `key=value` at pad + 4, a float through the formatter |
| Features.FeatureSet.Dump | freetts/src/main/java/com/sun/speech/freetts/FeatureSetImpl.java:179-205 | writes the title line, then the features in reverse insertion order (skipping "name" unless `showName`), a dumpable value through its own dump at pad + 4, a float through the formatter, anything else as `key=value` |
| CmuDiphoneVoice.FixAH | en_us/src/main/java/com/sun/speech/freetts/en/us/CMUDiphoneVoice.java:205-207 | one segment: a name "ah" becomes "aa" and any other string name is kept, with the other features and the key order unchanged; a null name is a NullPointerException and a non-string name a ClassCastException |
| CmuDiphoneVoice.FixAHIdempotent | en_us/src/main/java/com/sun/speech/freetts/en/us/CMUDiphoneVoice.java:205-207 | fixing a fixed segment again changes nothing |
| CmuDiphoneVoice.FixFirst | en_us/src/main/java/com/sun/speech/freetts/en/us/CMUDiphoneVoice.java:204-208 | the walk over the first `n` segments keeps one feature map per segment |
| CmuDiphoneVoice.FirstFailure | en_us/src/main/java/com/sun/speech/freetts/en/us/CMUDiphoneVoice.java:204-208 | the index of the first segment whose name cannot be read as a string, or the number of segments |
| CmuDiphoneVoice.FirstFailureIs | en_us/src/main/java/com/sun/speech/freetts/en/us/CMUDiphoneVoice.java:204-208 | that index is the only one with this property |
| CmuDiphoneVoice.FixFirstIsReference | en_us/src/main/java/com/sun/speech/freetts/en/us/CMUDiphoneVoice.java:204-208 | after `n` segments, the segments before both `n` and the first failure are fixed and the rest unchanged, and the error is the failing segment's if it was reached |
| CmuDiphoneVoice.FixAllIsReference | en_us/src/main/java/com/sun/speech/freetts/en/us/CMUDiphoneVoice.java:203-209 | `fixPhoneme_AH` fixes every segment before the first failing one, leaves it and the later ones unchanged, and reports its exception |
| CmuDiphoneVoice.FixAllRenames | en_us/src/main/java/com/sun/speech/freetts/en/us/CMUDiphoneVoice.java:203-209 | the only change is "ah" renamed "aa"; there is no exception exactly when every name is a string, and then no "ah" is left |
| CmuDiphoneVoice.FixAllIdempotent | en_us/src/main/java/com/sun/speech/freetts/en/us/CMUDiphoneVoice.java:203-209 | running the fix twice is running it once |
| CmuDiphoneVoice.FixNext | en_us/src/main/java/com/sun/speech/freetts/en/us/CMUDiphoneVoice.java:204-208 | one more segment: it is fixed, or the walk stops with its exception |
| CmuDiphoneVoice.FixUntouched | en_us/src/main/java/com/sun/speech/freetts/en/us/CMUDiphoneVoice.java:204-208 | a segment the walk has not reached is unchanged |
| CmuDiphoneVoice.FixStopped | en_us/src/main/java/com/sun/speech/freetts/en/us/CMUDiphoneVoice.java:204-208 | after an exception later segments change nothing |
| CmuDiphoneVoice.PostLexicalAnalyzer.constructor | en_us/src/main/java/com/sun/speech/freetts/en/us/CMUDiphoneVoice.java:182 | keeps the English post-lexical analyser it delegates to |
| CmuDiphoneVoice.PostLexicalAnalyzer.ProcessUtterance | en_us/src/main/java/com/sun/speech/freetts/en/us/CMUDiphoneVoice.java:192-195 | fixes "ah" first; an exception there ends processing, otherwise the English analyser runs on the fixed segments |
| CmuDiphoneVoice.PostLexicalAnalyzer.FixPhonemeAH | en_us/src/main/java/com/sun/speech/freetts/en/us/CMUDiphoneVoice.java:203-209 | the segments end as `FixAll` of their old features, and the exception is the first failure's |
| CmuDiphoneVoice.PostLexicalAnalyzer.FixAt | en_us/src/main/java/com/sun/speech/freetts/en/us/CMUDiphoneVoice.java:204-208 | one loop turn extends the walk by one segment |
| CmuDiphoneVoice.PostLexicalAnalyzer.FixSegment | en_us/src/main/java/com/sun/speech/freetts/en/us/CMUDiphoneVoice.java:205-207 | the segment's features become `FixAH` of the old ones, or are unchanged with its exception |
| CmuDiphoneVoice.PostLexicalAnalyzer.ToString | en_us/src/main/java/com/sun/speech/freetts/en/us/CMUDiphoneVoice.java:212-214 | the text "PostLexicalAnalyzer" of 19 characters |
| CmuDiphoneVoice.Lookup | en_us/src/main/java/com/sun/speech/freetts/en/us/CMUDiphoneVoice.java:87-90 | a missing name or resource is an IOException caused by NullPointerException, a malformed URI one caused by URISyntaxException, a non-string name the unwrapped ClassCastException; otherwise the resource's URI |
| CmuDiphoneVoice.CMUDiphoneVoice.constructor | en_us/src/main/java/com/sun/speech/freetts/en/us/CMUDiphoneVoice.java:81-94 | keeps the name, features and given database |
| CmuDiphoneVoice.CMUDiphoneVoice.GetDatabase | en_us/src/main/java/com/sun/speech/freetts/en/us/CMUDiphoneVoice.java:81-94 | a database already there is returned unchanged; otherwise it is looked up by the `databaseName` feature and remembered on success |
| CmuDiphoneVoice.CMUDiphoneVoice.ToString | en_us/src/main/java/com/sun/speech/freetts/en/us/CMUDiphoneVoice.java:169-171 | "CMUDiphoneVoice(" + the voice's name + ")" |
| VoiceRegistry.AddOne | freetts/src/main/java/com/sun/speech/freetts/VoiceManager.java:674-679 | adding an element already there changes nothing; a new one goes to the end |
| VoiceRegistry.AddEach | freetts/src/main/java/com/sun/speech/freetts/VoiceManager.java:687-703 | after adding a run of elements one by one, exactly the old elements and the added ones are present |
| VoiceRegistry.AddEachIsFirstNew | freetts/src/main/java/com/sun/speech/freetts/VoiceManager.java:687-703 | adding a run appends the first occurrence of each element that was not already there, in run order |
| VoiceRegistry.AddEachNoDup | freetts/src/main/java/com/sun/speech/freetts/VoiceManager.java:674-703 | adding never creates a repeat |
| VoiceRegistry.AddEachPresent | freetts/src/main/java/com/sun/speech/freetts/VoiceManager.java:674-703 | adding elements that are all present changes nothing |
| VoiceRegistry.AddEachSnoc | freetts/src/main/java/com/sun/speech/freetts/VoiceManager.java:699-702 | adding one more element at the end of the run is one more `add` |
| VoiceRegistry.AddEachNext | freetts/src/main/java/com/sun/speech/freetts/VoiceManager.java:688-690 | the loop after `i + 1` elements is the loop after `i` followed by `add` of element `i` |
| VoiceRegistry.UniqueVector.constructor | freetts/src/main/java/com/sun/speech/freetts/VoiceManager.java:663-666 | a new vector and its set are empty |
| VoiceRegistry.UniqueVector.Add | freetts/src/main/java/com/sun/speech/freetts/VoiceManager.java:674-679 | `add(o)` appends `o` unless present, the set now holds `o`, and list and set stay in step without repeats |
| VoiceRegistry.UniqueVector.AddVector | freetts/src/main/java/com/sun/speech/freetts/VoiceManager.java:687-691 | `addVector(v)` adds the elements of `v` one by one, in `v`'s order |
| VoiceRegistry.UniqueVector.AddArray | freetts/src/main/java/com/sun/speech/freetts/VoiceManager.java:699-703 | `addArray(a)` adds the array's elements one by one, in array order |
| VoiceRegistry.UniqueVector.Contains | freetts/src/main/java/com/sun/speech/freetts/VoiceManager.java:722-724 | the set lookup answers whether `o` is in the list |
| VoiceRegistry.UniqueVector.Get | freetts/src/main/java/com/sun/speech/freetts/VoiceManager.java:732-734 | the `index`-th element added, or IndexOutOfBoundsException for an index outside the list |
| VoiceRegistry.UniqueVector.SizeIsSetSize | freetts/src/main/java/com/sun/speech/freetts/VoiceManager.java:710-712 | the size of the list equals the number of distinct elements held |
| VoiceRegistry.DistinctCount | freetts/src/main/java/com/sun/speech/freetts/VoiceManager.java:710-712 | a list without repeats has as many elements as its set |
| VoiceRegistry.Wanted | freetts/src/main/java/com/sun/speech/freetts/VoiceManager.java:564-566 | every kept line is a name: not empty and not starting with '#' |
| VoiceRegistry.WantedFromLines | freetts/src/main/java/com/sun/speech/freetts/VoiceManager.java:559-568 | a text is kept exactly when it is a name and some input line trims to it |
| VoiceRegistry.WantedNext | freetts/src/main/java/com/sun/speech/freetts/VoiceManager.java:560-567 | one more line read adds its trimmed text when that is a name |
| VoiceRegistry.VoiceDirectoryNames | freetts/src/main/java/com/sun/speech/freetts/VoiceManager.java:556-570 | the names are the trimmed non-comment, non-empty lines, added in order without repeats |
| VoiceRegistry.VoiceDirectoryNamesAre | freetts/src/main/java/com/sun/speech/freetts/VoiceManager.java:556-570 | the result holds each wanted name once, at its first occurrence, and nothing else |
| VoiceRegistry.Cut | freetts/src/main/java/com/sun/speech/freetts/VoiceManager.java:520-523 | the position of the last '!' in the path, or its length when there is none |
| VoiceRegistry.LastIndexAtOrBefore | freetts/src/main/java/com/sun/speech/freetts/VoiceManager.java:524 | `lastIndexOf(c, from)`: the last position at or before `from` holding `c`, or -1 when there is none |
| VoiceRegistry.URLDirName | freetts/src/main/java/com/sun/speech/freetts/VoiceManager.java:518-529 | a path not starting with "file:" gives "", as does nothing else; otherwise the text from index 5 up to the last '/' before the '!' cut, followed by '/'; with no such '/' the substring throws IndexOutOfBoundsException |
| VoiceRegistry.DynamicClassLoader.constructor | freetts/src/main/java/com/sun/speech/freetts/VoiceManager.java:609-615 | the class path starts as exactly the given URLs |
| VoiceRegistry.DynamicClassLoader.AddUniqueURL | freetts/src/main/java/com/sun/speech/freetts/VoiceManager.java:622-629 | a URL not yet added and not naming freetts.jar is added to the loader and the class path; a malformed one throws before anything changes; any other URL changes nothing |
| VoiceRegistry.AddUniqueKeepsNoDup | freetts/src/main/java/com/sun/speech/freetts/VoiceManager.java:625-627 | adding only URLs not yet present keeps the path free of repeats |
| VoiceRegistry.Listing | freetts/src/main/java/com/sun/speech/freetts/VoiceManager.java:443-460 | the loop builds the names as `Built` states |
| VoiceRegistry.JoinWithSnoc | freetts/src/main/java/com/sun/speech/freetts/VoiceManager.java:455-456 | joining one more name appends a space and the name |
| VoiceRegistry.BuiltPrefix | freetts/src/main/java/com/sun/speech/freetts/VoiceManager.java:454-457 | before the last voice the text is the names so far joined by spaces, plus a space |
| VoiceRegistry.ListingIsJoin | freetts/src/main/java/com/sun/speech/freetts/VoiceManager.java:443-460 | no voices give "", one voice its name, several the names joined with spaces and "or " before the last |
| ArcticFrames.PrintStream.constructor | freetts/src/test/java/tools/arcticToFreeTTS/Frame.java:22 | a fresh output holds no text |
| ArcticFrames.PrintStream.Print | freetts/src/test/java/tools/arcticToFreeTTS/STSFrame.java:39-46 | `print(s)` appends `s` |
| ArcticFrames.PrintStream.Println | freetts/src/test/java/tools/arcticToFreeTTS/STSFrame.java:43-48 | `println()` appends a newline |
| ArcticFrames.LineReader.constructor | freetts/src/test/java/tools/arcticToFreeTTS/STSFrame.java:13 | a reader over the given lines, at the first one |
| ArcticFrames.LineReader.ReadLine | freetts/src/test/java/tools/arcticToFreeTTS/STSFrame.java:15-26 | `readLine()` gives the next line, or null past the end, and moves on |
| ArcticFrames.RenderingsAt | freetts/src/test/java/tools/arcticToFreeTTS/STSFrame.java:41-46 | the rendering of each value is its decimal text |
| ArcticFrames.FieldsSnoc | freetts/src/test/java/tools/arcticToFreeTTS/STSFrame.java:40-42 | one more value prints as one more " value" field |
| ArcticFrames.TokensSkipDelimiter | freetts/src/test/java/tools/arcticToFreeTTS/STSFrame.java:21 | a leading delimiter is skipped by the tokenizer |
| ArcticFrames.TokensTakeToken | freetts/src/test/java/tools/arcticToFreeTTS/STSFrame.java:21-23 | a token followed by a delimiter or the end is the tokenizer's next token |
| ArcticFrames.DefaultDelimitersAreNotDigits | freetts/src/test/java/tools/arcticToFreeTTS/STSFrame.java:21 | no default delimiter is a digit or '-' |
| ArcticFrames.FieldsTokensHead | freetts/src/test/java/tools/arcticToFreeTTS/STSFrame.java:21-23 | the first token of printed fields is the first value's text |
| ArcticFrames.TokensOfFields | freetts/src/test/java/tools/arcticToFreeTTS/STSFrame.java:21-42 | tokenizing printed " value" fields gives back the values' texts, in order |
| ArcticFrames.Frame.Empty | freetts/src/test/java/tools/arcticToFreeTTS/Frame.java:11-12 | `Frame()`: pitchmark time 0 and no parameters |
| ArcticFrames.Frame.constructor | freetts/src/test/java/tools/arcticToFreeTTS/Frame.java:14-17 | keeps the pitchmark time and the parameters |
| ArcticFrames.Frame.DumpData | freetts/src/test/java/tools/arcticToFreeTTS/Frame.java:22-29 | prints "FRAME" with each parameter after a space and a newline, then "RESIDUAL 0" and a newline; with no parameters the loop throws NullPointerException after "FRAME" |
| ArcticFrames.ResidualZero | freetts/src/test/java/tools/arcticToFreeTTS/Frame.java:28 | "RESIDUAL 0" is the residual line of no residuals |
| ArcticFrames.PrintFields | freetts/src/test/java/tools/arcticToFreeTTS/STSFrame.java:40-42 | prints " value" for each array element, in order |
| ArcticFrames.IntTokens | freetts/src/test/java/tools/arcticToFreeTTS/STSFrame.java:22-23 | parsing `n` tokens gives `n` ints |
| ArcticFrames.IntTokensSnoc | freetts/src/test/java/tools/arcticToFreeTTS/STSFrame.java:22-23 | one more parsed token extends the ints by its value |
| ArcticFrames.IntTokensOfRenderings | freetts/src/test/java/tools/arcticToFreeTTS/STSFrame.java:22-23 | parsing the texts of 32-bit ints gives the ints back |
| ArcticFrames.DumpedFieldsReadBack | freetts/src/test/java/tools/arcticToFreeTTS/STSFrame.java:13-49 | the residual line printed by `dumpData` is "RESIDUAL" and the count and residual fields; the pitch line, the parameter fields and the count-and-residual fields read back as the frame's pitchmark time, parameters and residuals |
| ArcticFrames.ReadsRenderings | freetts/src/test/java/tools/arcticToFreeTTS/STSFrame.java:21-42 | printed fields tokenize to their texts and parse back to the values |
| ArcticFrames.ReadsCountedRenderings | freetts/src/test/java/tools/arcticToFreeTTS/STSFrame.java:27-31 | a count followed by that many values reads first the count and then the values |
| ArcticFrames.ReadsAfterCount | freetts/src/test/java/tools/arcticToFreeTTS/STSFrame.java:29-31 | the values after a leading token read back |
| ArcticFrames.ShiftedRead | freetts/src/test/java/tools/arcticToFreeTTS/STSFrame.java:29-31 | values read from the start of a list read the same after one more leading token |
| ArcticFrames.RenderingsCons | freetts/src/test/java/tools/arcticToFreeTTS/STSFrame.java:40-42 | the texts of a list are the first value's text and then the rest's |
| ArcticFrames.IntTokensShift | freetts/src/test/java/tools/arcticToFreeTTS/STSFrame.java:29-31 | reading from `from + 1` after a leading token is reading from `from` without it |
| ArcticFrames.STSFrame.constructor | freetts/src/test/java/tools/arcticToFreeTTS/STSFrame.java:9-11 | keeps the pitchmark time, parameters and residuals |
| ArcticFrames.STSFrame.Read | freetts/src/test/java/tools/arcticToFreeTTS/STSFrame.java:13-32 | `new STSFrame(numChannels, reader)` reads three lines: a float pitchmark time, `numChannels` ints and a count followed by that many residual ints; it succeeds exactly when `ParseFrame` does, with fresh arrays holding its values, and otherwise fails with its exception |
| ArcticFrames.STSFrame.ReadParameters | freetts/src/test/java/tools/arcticToFreeTTS/STSFrame.java:18-24 | the second line gives the parameter array, or the exception of a missing line, token or number |
| ArcticFrames.STSFrame.ReadResiduals | freetts/src/test/java/tools/arcticToFreeTTS/STSFrame.java:26-31 | the third line gives the residual array of the leading count, or its exception |
| ArcticFrames.STSFrame.DumpData | freetts/src/test/java/tools/arcticToFreeTTS/STSFrame.java:38-49 | prints the FRAME line of the parameters and then "RESIDUAL", the count and each residual, each line ended by a newline |
| ArcticFrames.FillInts | freetts/src/test/java/tools/arcticToFreeTTS/STSFrame.java:22-30 | fills the array with the parsed tokens from `from` on, or stops with the first parse error |
| ArcticFrames.IntTokensStopped | freetts/src/test/java/tools/arcticToFreeTTS/STSFrame.java:22-30 | after the first failing token later ones do not matter |
| EngineCentral.DomainLocale.constructor | freetts-jsapi10/src/main/java/com/sun/speech/engine/freetts/jsapi/FreeTTSEngineCentral.java:171-175 | keeps the domain and the locale, with no voices |
| EngineCentral.DomainLocale.AddVoice | freetts-jsapi10/src/main/java/com/sun/speech/engine/freetts/jsapi/FreeTTSEngineCentral.java:215-217 | appends the voice |
| EngineCentral.DomainLocale.GetVoices | freetts-jsapi10/src/main/java/com/sun/speech/engine/freetts/jsapi/FreeTTSEngineCentral.java:225-228 | a new array of the voices, in the order they were added |
| EngineCentral.EqualsIsSameKey | freetts-jsapi10/src/main/java/com/sun/speech/engine/freetts/jsapi/FreeTTSEngineCentral.java:185-190 | two entries are equal exactly when domain and locale are, and equality is symmetric |
| EngineCentral.GetItem | freetts-jsapi10/src/main/java/com/sun/speech/engine/freetts/jsapi/FreeTTSEngineCentral.java:145-152 | the first entry equal to `o`, or null when no entry is equal |
| EngineCentral.GroupKeys | freetts-jsapi10/src/main/java/com/sun/speech/engine/freetts/jsapi/FreeTTSEngineCentral.java:95-104 | the (domain, locale) keys of the groups, in order |
| EngineCentral.GroupVoices | freetts-jsapi10/src/main/java/com/sun/speech/engine/freetts/jsapi/FreeTTSEngineCentral.java:95-104 | the voices of the groups, in order |
| EngineCentral.GroupsDistinct | freetts-jsapi10/src/main/java/com/sun/speech/engine/freetts/jsapi/FreeTTSEngineCentral.java:95-104 | no two groups share a (domain, locale) key |
| EngineCentral.VoicesWithSnoc | freetts-jsapi10/src/main/java/com/sun/speech/engine/freetts/jsapi/FreeTTSEngineCentral.java:98-103 | one more voice joins the group of its key only |
| EngineCentral.KeysOfSnoc | freetts-jsapi10/src/main/java/com/sun/speech/engine/freetts/jsapi/FreeTTSEngineCentral.java:96-97 | one more voice adds its key at the end |
| EngineCentral.VoicesWithAbsent | freetts-jsapi10/src/main/java/com/sun/speech/engine/freetts/jsapi/FreeTTSEngineCentral.java:95-104 | a key that no voice has has no voices |
| EngineCentral.AddToGroups | freetts-jsapi10/src/main/java/com/sun/speech/engine/freetts/jsapi/FreeTTSEngineCentral.java:96-103 | one voice: the grouping of the earlier voices becomes the grouping of them and this one, earlier groups kept in place |
| EngineCentral.NoEqualNoKey | freetts-jsapi10/src/main/java/com/sun/speech/engine/freetts/jsapi/FreeTTSEngineCentral.java:99 | when `getItem` finds no equal entry, the key is not among the groups' keys |
| EngineCentral.AppendGroup | freetts-jsapi10/src/main/java/com/sun/speech/engine/freetts/jsapi/FreeTTSEngineCentral.java:99-101 | a voice of a new key starts a new group at the end |
| EngineCentral.KeysAfterNew | freetts-jsapi10/src/main/java/com/sun/speech/engine/freetts/jsapi/FreeTTSEngineCentral.java:99-101 | a new group's key is the next new key of the voices |
| EngineCentral.KeysAfterOld | freetts-jsapi10/src/main/java/com/sun/speech/engine/freetts/jsapi/FreeTTSEngineCentral.java:102 | a voice of an existing key adds no key |
| EngineCentral.ExtendGroup | freetts-jsapi10/src/main/java/com/sun/speech/engine/freetts/jsapi/FreeTTSEngineCentral.java:102 | a voice of an existing key joins that group |
| EngineCentral.GroupAll | freetts-jsapi10/src/main/java/com/sun/speech/engine/freetts/jsapi/FreeTTSEngineCentral.java:95-104 | the groups are the voices' distinct keys in first-seen order, each with its voices in voice order |
| EngineCentral.DescriptionsNext | freetts-jsapi10/src/main/java/com/sun/speech/engine/freetts/jsapi/FreeTTSEngineCentral.java:108-129 | one more group adds its descriptor when it is kept |
| EngineCentral.CreateEngineList | freetts-jsapi10/src/main/java/com/sun/speech/engine/freetts/jsapi/FreeTTSEngineCentral.java:87-135 | `createEngineList` computes `EngineList`: the kept descriptors of the groups in order, or null when none is kept |
| EngineCentral.Describe | freetts-jsapi10/src/main/java/com/sun/speech/engine/freetts/jsapi/FreeTTSEngineCentral.java:110-118 | a group's descriptor: engine name "FreeTTS <locale> <domain> synthesizer", mode name the domain, the group's voices |
| EngineCentral.VoicesWithIsFilter | freetts-jsapi10/src/main/java/com/sun/speech/engine/freetts/jsapi/FreeTTSEngineCentral.java:98-103 | a group holds exactly the voices of its key |
| EngineCentral.GroupSizesSnoc | freetts-jsapi10/src/main/java/com/sun/speech/engine/freetts/jsapi/FreeTTSEngineCentral.java:98-103 | one more voice adds one to the total size of the groups exactly when its key is among them |
| EngineCentral.GroupsCoverVoices | freetts-jsapi10/src/main/java/com/sun/speech/engine/freetts/jsapi/FreeTTSEngineCentral.java:95-104 | the groups' sizes add up to the number of voices, so every voice is in exactly one group |
| EngineCentral.VoiceInOneGroup | freetts-jsapi10/src/main/java/com/sun/speech/engine/freetts/jsapi/FreeTTSEngineCentral.java:95-104 | every voice is in the one group of its key |
| EngineCentral.KeyAmongKeys | freetts-jsapi10/src/main/java/com/sun/speech/engine/freetts/jsapi/FreeTTSEngineCentral.java:96-100 | every voice's key is among the groups' keys |
| EngineCentral.DescriptionsShape | freetts-jsapi10/src/main/java/com/sun/speech/engine/freetts/jsapi/FreeTTSEngineCentral.java:108-129 | every description comes from a group's key, has the engine-name shape and that group's voices, and was kept |
| EngineCentral.DescriptionsEmpty | freetts-jsapi10/src/main/java/com/sun/speech/engine/freetts/jsapi/FreeTTSEngineCentral.java:121-133 | no description is produced exactly when no group's descriptor is kept |
| EngineCentral.DescriptionsDistinct | freetts-jsapi10/src/main/java/com/sun/speech/engine/freetts/jsapi/FreeTTSEngineCentral.java:108-129 | no two descriptions share a key |
| EngineCentral.KeysOfMembers | freetts-jsapi10/src/main/java/com/sun/speech/engine/freetts/jsapi/FreeTTSEngineCentral.java:96-97 | a key is among the voices' keys exactly when some voice has it |
| EngineCentral.EngineListProperties | freetts-jsapi10/src/main/java/com/sun/speech/engine/freetts/jsapi/FreeTTSEngineCentral.java:87-135 | the list is null exactly when no voice's group is kept; otherwise every entry describes the group of some voice's key under the engine-name pattern and was kept, and no two entries share a key |
| FreeTTSMain.Extension | freetts/src/main/java/com/sun/speech/freetts/FreeTTS.java:135-142 | null exactly when the path has no '.'; otherwise the suffix after the last '.', which holds no '.' |
| FreeTTSMain.Basename | freetts/src/main/java/com/sun/speech/freetts/FreeTTS.java:150-157 | the whole path when it has no '.'; otherwise the prefix before the last '.' |
| FreeTTSMain.BasenameExtension | freetts/src/main/java/com/sun/speech/freetts/FreeTTS.java:135-157 | base name, '.' and extension put back together give the path |
| FreeTTSMain.FirstWithExtensionIsFirst | freetts/src/main/java/com/sun/speech/freetts/FreeTTS.java:121-126 | the type found is the first whose extension matches; none is found exactly when no type matches |
| FreeTTSMain.GetAudioType | freetts/src/main/java/com/sun/speech/freetts/FreeTTS.java:117-128 | the loop returns the first matching type, or null |
| FreeTTSMain.FreeTTS.constructor | freetts/src/main/java/com/sun/speech/freetts/FreeTTS.java:47-53 | silent off, no audio file, single-file and not streaming; the shared player is kept and the voice has none yet |
| FreeTTSMain.FreeTTS.Startup | freetts/src/main/java/com/sun/speech/freetts/FreeTTS.java:76-109 | silent mode keeps the player; an audio file of a known type gives a multi-file or single-file player on the base name; an unknown type gives a raw-file player if the file opens, otherwise keeps the player; no file gives a clip player, or when streaming the voice's default player; any missing player becomes the null player, which the voice is given; the settings are unchanged |
| Speakables.ReportsOutcome | freetts/src/main/java/com/sun/speech/freetts/FreeTTSSpeakableImpl.java:73-86 | after any run of reports an item is completed iff there was one, cancelled iff one was a cancellation, and never cancelled without being completed |
| Speakables.FreeTTSSpeakableImpl.FromText | freetts/src/main/java/com/sun/speech/freetts/FreeTTSSpeakableImpl.java:40-42 | a text item, plain text exactly when the text is not null, neither completed nor cancelled |
| Speakables.FreeTTSSpeakableImpl.FromDocument | freetts/src/main/java/com/sun/speech/freetts/FreeTTSSpeakableImpl.java:49-51 | a document item, a document exactly when it is not null |
| Speakables.FreeTTSSpeakableImpl.FromStream | freetts/src/main/java/com/sun/speech/freetts/FreeTTSSpeakableImpl.java:58-60 | a stream item, a stream exactly when it is not null |
| Speakables.FreeTTSSpeakableImpl.ReportCompleted | freetts/src/main/java/com/sun/speech/freetts/FreeTTSSpeakableImpl.java:73-76 | completed; a cancellation already there stays |
| Speakables.FreeTTSSpeakableImpl.ReportCancelled | freetts/src/main/java/com/sun/speech/freetts/FreeTTSSpeakableImpl.java:82-86 | completed and cancelled |
| Speakables.FreeTTSSpeakableImpl.WaitCompleted | freetts/src/main/java/com/sun/speech/freetts/FreeTTSSpeakableImpl.java:106-116 | a completed item answers whether it was not cancelled; an interrupted wait answers false; otherwise the caller is still waiting |
| EngineProperties.RemoveFirstAbsent | freetts-jsapi10/src/main/java/com/sun/speech/engine/BaseEngineProperties.java:81-83 | removing a listener that is not registered changes nothing |
| EngineProperties.RemoveFirstAt | freetts-jsapi10/src/main/java/com/sun/speech/engine/BaseEngineProperties.java:81-83 | `remove` takes out the first occurrence only |
| EngineProperties.RemoveFirstFromUnique | freetts-jsapi10/src/main/java/com/sun/speech/engine/BaseEngineProperties.java:81-83 | in a list without repeats, removing takes out exactly that listener, keeps the others in order and keeps the list free of repeats |
| EngineProperties.SkipIndex | freetts-jsapi10/src/main/java/com/sun/speech/engine/BaseEngineProperties.java:81-83 | the elements of a list after one index is taken out |
| EngineProperties.BaseEngineProperties.constructor | freetts-jsapi10/src/main/java/com/sun/speech/engine/BaseEngineProperties.java:36-38 | no listeners |
| EngineProperties.BaseEngineProperties.AddPropertyChangeListener | freetts-jsapi10/src/main/java/com/sun/speech/engine/BaseEngineProperties.java:68-72 | the listener is appended unless already registered, so none is registered twice |
| EngineProperties.BaseEngineProperties.RemovePropertyChangeListener | freetts-jsapi10/src/main/java/com/sun/speech/engine/BaseEngineProperties.java:81-83 | the listener is taken out if registered |
| EngineProperties.BaseEngineProperties.FirePropertyChangeEvent | freetts-jsapi10/src/main/java/com/sun/speech/engine/BaseEngineProperties.java:170-177 | the event goes once to each listener, in registration order |
| EngineProperties.BaseEngineProperties.DispatchSpeechEvent | freetts-jsapi10/src/main/java/com/sun/speech/engine/BaseEngineProperties.java:190-197 | a wrapped property change is fired to all listeners; a wrapper of anything else fails the cast; any other event is a SpeechError with the message "BaseEngineProperties: speech event type error" |

## Left out

- File and device I/O is not modelled. This covers opening the database file (memory-mapped or stream), `JavaClipAudioPlayer`, `RawFileAudioPlayer`, the `AudioSystem.write` call in `end` and `close`, and reading a voices file. The byte-level readers work on a byte sequence, and one reader stands for both the `ByteBuffer` and the `DataInputStream` loaders, since they share one layout. A text file is the list of its lines, with `readLine` returning null past the end.
- Floating point: float arithmetic in the duration processor and in the nearest-sample distances is `real` arithmetic, without IEEE rounding. `Float.parseFloat` of the duration-stretch feature is a parameter that yields a number or the NumberFormatException. `DecimalFormat` output in the feature dump is a formatting parameter.
- Classes that are not part of this model are parameters and are not given behaviour. These are `CART`, `SampleSet`, `Sample`, `PathExtractor`, `PhoneDurations`, the English `PostLexicalAnalyzer`, `Locale`, `EngineModeDesc` matching and validation, and the `FreeTTSVoice` wrapper, which is the voice itself here. `Item` is only a holder of a feature set, and the linked segment list is a sequence of items.
- `ClusterUnitDatabase.compare` is a stub that warns and answers false, so it is not modelled. Also left out are `loadUnitOrigins` (a debugging sidecar file), both command-line `main` drivers, and logging and diagnostic printing.
- Concurrency is not modelled: `synchronized`, `notifyAll` and the output thread. A `waitCompleted` that would block is the answer None.
- Timers are not modelled: `startFirstSampleTimer` only sets the flag, and `getTime` is omitted.
- Getters that return constants carry no contract and have no row: `getVolume` and `drain` of the file players, the players' `begin` and `end` that return true, and `getTime`.
- The static `audioPlayer` of the driver is a field of the `FreeTTS` object. The voice's `setAudioPlayer` is the field `voicePlayer`, and the voice's default player is a parameter of `startup`.
- `firePropertyChangeEvent` returns its deliveries instead of calling the listeners, and the listener list is never null, because no code in this model sets it to null. `postPropertyChangeEvent` is left out.
- `DomainLocale.equals` compares key values. The null-domain case is left out because it cannot arise: the grouping always passes the voice's domain.
- `println` is the single character "\n".
- ArcticFrames.STSFrame.Read: the model does not prove that it reads back what `STSFrame.dumpData` prints, because `dumpData` starts its lines with the tags "FRAME" and "RESIDUAL", which the parser would take as numbers. Instead, DumpedFieldsReadBack shows that the field text after the tags reads back.
- ClusterUnits.ClusterUnitDatabase.LoadLine: an unknown tag is the fatal error whose message, in the code as in the model, names the tag but not the line number. The code's `lineCount` is incremented only once, before the loop, and is not modelled; the IOException message that reports it is left out with the rest of file I/O.
- ClusterUnits.ClusterUnitDatabase.CalcJoinWeightShift: the result follows the code, not an exact division by the weight. A shift of 1 is returned for first weights 21846 to 32768, which includes weights for which `x >> 1` is not `x * w / 65536`. How the selector uses the shift is not part of this model.
- JavaLang.ParseInt: decimal parsing accepts the ASCII digits '0'..'9' only. `Integer.parseInt` also accepts the other Unicode decimal digits, so a unit name such as `ah_` followed by an Arabic-Indic digit, or a text-database or frame field written in such digits, is a NumberFormatException here where the code reads a number. This applies wherever ParseInt is used: GetUnitIndexName, IntArg and IntTokens.
- VoiceRegistry.DynamicClassLoader.AddUniqueURL: URIs are compared by their text. `URI.equals` ignores case in the scheme and the host, so two spellings of one URI that differ only there count as two entries here.
