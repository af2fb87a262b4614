# Proofs about the search engine's databases, annotations and queries

This project models three parts of the repository in Dafny and proves what they promise.

* **Constant databases.** `CdbWriter` is the writer of tinycdb as a class: a 4096-byte buffer over a file, 256 chains
  of (hash, position) blocks, and the deletion of records in the middle of a half-written file. `HashTables` and
  `Layout` are the half-empty open-addressing tables and the finished file, `CdbReader`, `CdbSeek` and `CdbSeq` the
  four readers, `CdbRun` whole programs, `Dump` the text form and `Rebuild` what becomes of a database that is dumped
  and built again. `Format` says what every byte of a file is, `TextForm` what every character of a text is. `CdbPlus`
  and `CdbPlusReader` are the CDB++ sibling. `ProbeTable` holds the theory of open addressing that both formats share.
* **Stand-off annotations.** `Export` weaves tags into a text, `Import` is the importer as an automaton over tokens,
  `Importer` the same importer as a program, `Lexical` and `References` its tokens, tags and character references one
  by one, `Neat` what can come out of an import, `RoundTrip` the simulation of one by the other, and `Reexport` the
  round trip that starts from a tagged text. `Mapper` and `Clip` are the clip and unite operations, `Merging` and
  `TwoFiles` the two merge algorithms.
* **The query evaluator.** `BoolOps` is the algebra of ascending id lists with an infinite list, `Evaluator` the
  evaluation of a query tree with pruning. `Turns` is the order in which position lists are read in step, `Heads`,
  `Proximity` and `Union` are the walks over them in one node. `Relevance` says what a query asks of a document,
  `QueryWalk` is the walk over the whole tree, and `Answers` the whole search. `Lisp` is the S-expression reader that
  feeds it.

Code that changes state in place is modelled by classes and loops, each proved equal to a function of its input or of
the old state; what the repository promises is proved about those functions.

## Conventions

* `Bytes.HASH` is an arbitrary function from keys to 32-bit words. Nothing depends on which one, so the results hold
  for `cdb_hash` and for MurmurHash2.
* A data section is a sequence of entries; a zero-filled gap is an entry that is not live. `Vals(es, key)` is the
  multimap: the live values of a key, oldest first.
* 32-bit arithmetic is written out (`Add32`, `Sub32`, `Pack`) where the code computes in it. Two guards of the writer
  of tinycdb are too weak, and the exact conditions are proved. `GuardExact`: the record guard is right if and only if
  the data section ends at least 8 bytes below the limit; beyond that it wraps around and lets a record pass that ends
  beyond 32 bits (`CdbRun.GuardWraps`). A put leaves the writer in order if and only if the data section then ends
  within 32 bits. `FinishExact`: `cdb_find` and `cdb_findinit` accept every bucket of a finished file if and only if
  16 bytes per record fit, while the code checks 8. `GuardTooWeak` is a program with one record that the code's check
  lets pass: the file opens, but `cdb_find` and `cdb_findinit` refuse the bucket. `cdb_seek` checks nothing and still
  finds the record; its own condition is that every slot of the bucket starts within 32 bits (`CdbSeek.Reachable`).
* The builder of CDB++ checks nothing. It is in order after a put if and only if the record starts within 32 bits, as
  its sizes do, and whatever it then closes is a finished image. A reader finds the values of a key whose table starts
  within 32 bits. A table that starts at 2^32 is referred to as if it did not exist (`CdbPlusReader.TableLost`).
* Dumping a database and adding the parsed records to a new one gives the same values under every key if and only if
  the old one has no gap: a gap that REPLACE0 left comes back as a record of the empty key (`Rebuild.Rebuilt`,
  `Rebuild.GapComesBack`).
* The stand-off model writes offsets as natural numbers. A character of a text stands for a byte.
* `Clip.ClipLaidOut` shows that clipping and uniting fit together if and only if the first clipped region begins
  behind offset 0 or is the only one: a region at 0 leaves the code's `firstRegion` set, and the newline that the
  mapper counts on is not written (`Clip.MissingNewline` is an example). `Clip.Delimited` tells it from the relayed
  names and the tags; so does `Clip.RegionsInOrder`, whether the mapper accepts what was clipped.
* A failing assertion of `Mapper::map` counts as an error. `Clip.Searchable` is the condition under which the search
  region handed from tag to tag leads to none; tags in the order of their begins meet it, and `Clip.OutOfOrder` is a
  list that does not.
* `Proximity.WalkProx` is exact for distances below 10000. From 10000 on `WalkTooFar` gives, for every distance, a
  document that is close enough and is removed: a window of exactly 10000 looks like no window at all.
* `Answers.Search` puts evaluation and walk together: the answers are exactly the documents that `Relevance.Relevant`
  tells from the query and the index alone. It covers strict and optional terms under ROOT, AND, PROX and OR nodes
  nested in any way, with anything at all in the places where the code asks nothing of a child: optional terms behind
  the first child of a conjunction, and behind the first child of a ROOT also alternatives and lenient terms. Any
  other further child of a ROOT is a condition like the first one. An optional term in front of an AND or PROX node is
  asked for, but its positions do not count; behind the first child of an OR node it is the other way round. Where a
  nested node stands depends on the order in which equal positions are read, which `Turns` makes part of the
  specification; a term stands only where the feature test admits it.
* `RoundTrip.RoundTrip` is an equivalence: for lists that can be woven in, importing the export gives back the text
  and the list if and only if names and attributes can be written inside a tag, the list is rooted, no two tags of one
  name cross, and no tag with something inside ends in a slash (`RoundTrip.SlashLost`). For lists that come from an
  import only the last condition is left (`Reexport.Reexported`).
* `Dump.GetNumExact` shows that the number parser accepts every number up to 4294967218 and refuses 4294967219.
* Scores are real numbers, and the square root is an arbitrary function (`Union.SQRT`).

## Model

| member | source | states |
|---|---|---|
| Bytes.UnpackPack | search/cdb/cdb_make.c:12-19 | unpacking what was packed gives the number modulo 2^32 |
| Bytes.SubBack | search/cdb/cdb_make_add.c:18-20 | adding back in 32 bits what was subtracted in 32 bits gives the number, with or without a borrow |
| Format.PackBytes | search/cdb/cdb_make.c:12-19 | byte i of a packed number is n / 256^i modulo 256: the least significant byte comes first |
| Format.WordBytes | search/cdb/cdb_unpack.c:9-17 | a word read from an image tells its four bytes, the least significant one first |
| Format.DataStart | search/cdb/cdb_make.c:26-27 | 256 tables of contents entries of eight bytes, and the data section at 2048 |
| Format.RecordInFile | search/cdb/cdb_make_add.c:31-39 | the bytes of every record of a finished file: four of the key's length, four of the value's, key, value |
| Format.TocInFile | search/cdb/cdb_make.c:150-157 | the bytes of the table of contents: for each bucket where its table starts, told from the records before it, and twice the number of its records |
| Format.SlotInFile | search/cdb/cdb_make.c:138-141 | the bytes of every slot: the hash, then the position, and eight zero bytes where it is empty |
| Format.RecordSlot | search/cdb/cdb_make.c:128-141 | where the slot of a live record is: from the hash divided by 256 on, cyclically, with no empty slot on the way, and its bytes |
| ProbeTable.ProbeStops | search/cdb/cdb_make.c:130-137 | a table that is not full stops every probe at an empty slot, so insertion terminates |
| ProbeTable.PlaceFinds | search/cdb/cdb_make.c:132-136 | placing a record keeps the probe of every hash right: its own records in list order, none behind the first empty slot |
| ProbeTable.BuildBag | search/cdb/cdb_make.c:128-137 | a built table holds every record of its list exactly once and nothing else |
| ProbeTable.BuildFinds | search/cdb/cdb_make.c:128-137 | every record is reached from its home slot before an empty one, equal hashes in insertion order |
| Records.IndexAscending | search/cdb/cdb_make_add.c:31-33 | the index of a bucket is strictly ascending in position, within the data section, and of that bucket's hashes only |
| Records.SplitAt | search/cdb/cdb_make_add.c:31-39 | every index entry points at the header of one entry, which splits the section around it |
| Records.HitsAreVals | search/cdb/cdb_findnext.c:47-76 | going through the index of a key's bucket in an image finds exactly the values of the key, oldest first |
| Updates.SweepVals | search/cdb/cdb_make_put.c:116-147 | a deleting pass drops every record of the key and leaves the values of every other key alone |
| Updates.SweepsAgree | search/cdb/cdb_make_put.c:133-146 | REPLACE and REPLACE0 leave the same live records; only the gaps differ |
| Updates.PutVals | search/cdb/cdb_make_put.c:170-202 | what a call leaves under its own key in each of the five modes, and that its result reports an older record exactly if there was one |
| Updates.PutOther | search/cdb/cdb_make_put.c:170-202 | a call changes the values of no other key |
| Updates.RunVals | search/cdb/cdb_make_put.c:170-202 | for every sequence of calls in any modes the data section stands for the multimap that the calls and their results describe |
| Updates.GuardExact | search/cdb/cdb_make_add.c:18-20 | the overflow guard admits exactly the records that fit if and only if dpos is at most 2^32 - 9 |
| Chains.OlderBefore | search/cdb/cdb_make_put.c:17-23 | once a position at or before the removed record is met, all further positions of the bucket are too: the early exit of fixup_rpos skips nothing |
| Chains.MovedAfter | search/cdb/cdb_make_put.c:13-24 | moving exactly the positions behind the removed record turns the old index into the new one |
| Deletion.HoldsCut | search/cdb/cdb_make_put.c:27-51 | cutting the bytes of one record out of an image leaves an image of the remaining entries |
| Deletion.IndexCut | search/cdb/cdb_make_put.c:13-24 | the index of the remaining entries is the old one without the record, positions behind it moved down by its length |
| Deletion.OwnChain | search/cdb/cdb_make_put.c:144-146 | removing the slot from its block and fixing the chain gives the index of the bucket after the deletion |
| Deletion.DeletedSums | search/cdb/cdb_make_put.c:32-49 | a deletion takes one live record away, and its bytes if the hole is closed |
| CdbWriter.CdbMake.Start | search/cdb/cdb_make.c:21-29 | a new writer holds no records, and its stream is the 2048 bytes of the table of contents |
| CdbWriter.CdbMake.Flush | search/cdb/cdb_make.c:46-55 | the buffer goes to the file and the logical stream stays what it was |
| CdbWriter.CdbMake.Write | search/cdb/cdb_make.c:57-81 | whatever the length, the logical stream (file, then buffer) grows by exactly the bytes |
| CdbWriter.CdbMake.AddRecord | search/cdb/cdb_make_add.c:10-42 | the record is refused exactly when the guard says so, else appended; the index and the position are right afterwards if and only if the data section ends within 32 bits |
| CdbWriter.CdbMake.FixupChain | search/cdb/cdb_make_put.c:18-21 | with its early exit the scan moves every position behind the removed record and no other |
| CdbWriter.CdbMake.ShiftDown | search/cdb/cdb_make_put.c:35-47 | the overlapping copy in chunks moves the tail down unchanged |
| CdbWriter.CdbMake.RemoveRecord | search/cdb/cdb_make_put.c:26-51 | the data section loses exactly the record, and the rest of the index points at its own records again |
| CdbWriter.CdbMake.ZerofillRecord | search/cdb/cdb_make_put.c:53-71 | the record becomes a well-formed gap, or is cut off if it was the last |
| CdbWriter.CdbMake.MatchRecord | search/cdb/cdb_make_put.c:73-104 | the length of the record if it is one of the key, else 0, with the key compared in pieces |
| CdbWriter.CdbMake.FindRec | search/cdb/cdb_make_put.c:106-152 | one pass that deletes while it iterates gives the swept data section and reports whether the key was there |
| CdbWriter.CdbMake.Put | search/cdb/cdb_make_put.c:169-202 | the entries and the result after a call are those of PutSpec, every byte of them is in the stream, and index, counts and position are right if and only if the data section ends within 32 bits |
| CdbWriter.CdbMake.WriteTables | search/cdb/cdb_make.c:122-148 | every table is built from its reversed chain and written behind the data section |
| CdbWriter.CdbMake.Finish | search/cdb/cdb_make.c:83-160 | the file is a finished database of the entries unless the guard refuses |
| HashTables.ReverseChain | search/cdb/cdb_make.c:99-113 | the list reversal keeps every record, oldest first, and counts them |
| HashTables.FillTable | search/cdb/cdb_make.c:128-137 | the filled slots are the table that the probe theory speaks of |
| HashTables.PackTable | search/cdb/cdb_make.c:138-141 | packing in place, two slots behind the slots read, gives the bytes of the table: no slot is overwritten before it is read |
| Layout.TablesEnd | search/cdb/cdb_make.c:97-113 | the record count is the sum of the bucket sizes, so the tables end 16 bytes per record behind the data |
| Layout.FinishedFrom | search/cdb/cdb_make.c:150-157 | overwriting the first 2048 bytes with the table of contents completes the file |
| CdbReader.ProbeFindsVals | search/cdb/cdb_findnext.c:41-80 | in a finished file a probe finds exactly the values of the key, oldest first |
| CdbReader.Cdb.Init | search/cdb/cdb_init.c:19-79 | an image is accepted unless it has fewer than 2048 bytes, and a finished one is open afterwards |
| CdbReader.Cdb.Find | search/cdb/cdb_find.c:9-75 | on a finished database: 1 and the oldest value, or 0 when the key is absent; on any image -1 when the bucket fails the checks, and a result lies inside the image |
| CdbReader.CdbFind.Init | search/cdb/cdb_findnext.c:11-39 | on any image -1 exactly when the bucket fails the checks; on a finished database all values of the key are still to come |
| CdbReader.CdbFind.Next | search/cdb/cdb_findnext.c:41-80 | a call delivers the next of the values to come, and 0 after the last |
| CdbReader.RecordOf | search/cdb/cdb_make.c:130-137 | every slot in use of a finished table points at the header of a record of the data section |
| CdbSeek.Seek | search/cdb/cdb_seek.c:37-99 | on a finished file, whenever every slot of the bucket starts within 32 bits: 1 with the file offset at the oldest value and its length, or 0 when the key is absent |
| CdbSeek.SeekFrom | search/cdb/cdb_seek.c:60-98 | whenever no seek is needed the file offset already is that of the slot about to be read, also after wrap-around |
| CdbSeq.SeqNext | search/cdb/cdb_seq.c:9-28 | the records of a data section one after the other, then 0 |
| CdbSeq.AllRecords | search/cdb/cdb_seq.c:9-28 | the whole walk yields the record sequence that dumping and parsing yields |
| CdbRun.Build | search/cdb/cdb_make_put.c:169-202 | a program of puts that stays within 32 bits and a finish return what the specification says and leave a finished file |
| CdbRun.Query | search/cdb/cdb.c:109-141 | the loop of qmode lists exactly the values of the key |
| CdbRun.BuildAndQuery | search/cdb/cdb_findnext.c:11-80 | from calls in any modes to answers: the query lists the values that the calls were to leave, oldest first |
| CdbRun.FinishExact | search/cdb/cdb_make.c:94-95 | cdb_find and cdb_findinit accept every table if and only if 16 bytes per record fit below 2^32 |
| CdbRun.WeakTable | search/cdb/cdb_make.c:94-95 | a call whose record leaves 8 bytes below 2^32: its table and both slots start within 32 bits, and the table ends beyond them |
| CdbRun.GuardTooWeak | search/cdb/cdb_make.c:94-95 | this call and a finish succeed and the file opens, but cdb_find and cdb_findinit return -1 for the key, while cdb_seek finds the value |
| CdbRun.GuardWraps | search/cdb/cdb_make_add.c:18-20 | two calls of which the guard admits the second, although it ends beyond 2^32 |
| Dump.DumpMode | search/cdb/cdb.c:171-205 | what is dumped from any image, from offset 2048 on, and when it is refused |
| Dump.DumpsRecords | search/cdb/cdb.c:184-204 | a data section is dumped record by record, gaps included, for arbitrary bytes |
| TextForm.DumpBack | search/cdb/cdb.c:184-204 | whatever can be dumped is a sequence of records up to the end of the data, and just those are dumped |
| TextForm.RecTextIs | search/cdb/cdb.c:189-198 | the text of a record in characters: a plus sign, both lengths in decimal, key, arrow, value, line end |
| TextForm.DecIs | search/cdb/cdb.c:189-189 | a length is written in the digits that stand for it, without zeros in front |
| Dump.GetNum | search/cdb/cdb.c:295-306 | the parser of numbers, which never leaves 32 bits |
| Dump.GetNumExact | search/cdb/cdb.c:295-306 | exactly the numbers n with n / 10 + n % 10 at most 429496729 are read back, among them all up to 4294967218 |
| TextForm.NumAtIs | search/cdb/cdb.c:295-306 | any run of digits is read as the number it stands for, exactly if that is accepted |
| Dump.ParseFile | search/cdb/cdb.c:327-345 | the records that a text gives, or a format error |
| TextForm.ParseExact | search/cdb/cdb.c:327-345 | any text is parsed as a list of records if and only if it consists of their lines, whatever digits their lengths have, and a line end |
| Dump.DumpParse | search/cdb/cdb.c:327-345 | parsing the text of records gives them back if and only if all their lengths can be read |
| Dump.DumpParseDatabase | search/cdb/cdb.c:171-205 | whatever database is dumped, parsing the dump gives its record sequence |
| Rebuild.Rebuilt | search/cdb/cdb.c:308-345 | adding the records of a dump again gives the same values under every key if and only if the database has no gap |
| Rebuild.DumpAndRebuild | search/cdb/cdb.c:171-345 | dump, parse, build and query in sequence: the old values when there is no gap, and in any case those of the entries with every gap made a record |
| Rebuild.GapComesBack | search/cdb/cdb_make_put.c:53-71 | a database with a REPLACE0 gap whose rebuilt copy has a value under the empty key that the old one had not |
| CdbPlus.Builder.Put | search/cdbpp.h:237-254 | a put appends the bytes of the record and lists its offset in 32 bits; the builder stays in order if and only if the record starts within 32 bits and its sizes fit |
| CdbPlus.PlaceIn | search/cdbpp.h:279-291 | a bucket goes to the first vacant element from its home on |
| CdbPlus.Builder.Close | search/cdbpp.h:257-330 | whatever the length, the stream becomes a finished image of the puts: tables, references and header, each number in 32 bits |
| Format.PlusHeader | search/cdbpp.h:310-315 | the first 16 bytes of an image: its name, its size, version 1 and the byte order check |
| Format.PlusReference | search/cdbpp.h:319-327 | the bytes of the reference to every table: where it starts, or zero, and its slots |
| Format.PlusSlot | search/cdbpp.h:293-297 | the bytes of every slot of a table, eight zero bytes where it is empty |
| Format.PlusRecord | search/cdbpp.h:240-243 | the bytes of every record: four of the key's length, key, four of the value's length, value |
| CdbPlusReader.PlusProbe | search/cdbpp.h:593-608 | a probe up to the first vacant slot finds exactly the values put under the key, and a vacant slot exists |
| CdbPlusReader.Reader.Open | search/cdbpp.h:508-571 | which images are refused, and that an image of a builder opens with as many records as there were puts |
| CdbPlusReader.Reader.Get | search/cdbpp.h:584-617 | the value of the first put of the key if its table starts within 32 bits, and nothing when there was none or the reference is zero |
| CdbPlusReader.Reader.Scan | search/cdbpp.h:593-608 | the loop without a counter terminates, because half of the table is vacant |
| CdbPlusReader.BuildAndGet | search/cdbpp.h:183-617 | from any sequence of puts that start within 32 bits to answers: as many records as puts, and the first value of the key if its table starts within them |
| CdbPlusReader.TableLost | search/cdbpp.h:316-327 | one put after which the record is counted, but its key is not found: the table starts at 2^32 |
| SemiXml.PlainEscape | enju2tsubaki/StandOffManager/StandOffManager.cpp:117-130 | an escaped character is read back as itself in front of any text |
| Lexical.EscapeIs | enju2tsubaki/StandOffManager/StandOffManager.cpp:117-130 | the two characters that are escaped, and how; all others stand for themselves |
| Lexical.SerIs | enju2tsubaki/StandOffManager/StandOffManager.cpp:362-408 | how start, empty and end tags are written, character by character |
| SemiXml.ParseBack | enju2tsubaki/StandOffManager/TagData.cpp:5-48 | a safe name with safe attributes is parsed back from the inside of its tag |
| Lexical.LexIs | enju2tsubaki/StandOffManager/StandOffManager.cpp:481-545 | the tokens of any text spell it; texts are not empty and hold no '<', tags hold no '>', and no two texts are neighbours |
| Lexical.ParseIs | enju2tsubaki/StandOffManager/TagData.cpp:5-48 | the inside of any tag that is not blank consists of blanks, the name up to the first blank, and the attributes without outer blanks, line ends counting as blanks |
| SemiXml.CodeIs | enju2tsubaki/StandOffManager/StandOffManager.cpp:133-186 | a character reference is accepted exactly if it consists of digits of the base and stands for at most the Unicode maximum, and then gives the number they stand for |
| SemiXml.CodeOfNumeral | enju2tsubaki/StandOffManager/StandOffManager.cpp:133-186 | the numeral of a number, in either base, is read back as that number exactly up to the Unicode maximum |
| References.Utf8Back | enju2tsubaki/StandOffManager/StandOffManager.cpp:189-226 | every code up to 0x10ffff is written as bytes that a decoder reads back as that code, in the shortest form and in front of anything |
| References.CodeTold | enju2tsubaki/StandOffManager/StandOffManager.cpp:133-186 | a numeral is accepted as a number exactly if its figures, of either case, write that number in the base and it is at most 0x10ffff |
| References.PlainNumeric | enju2tsubaki/StandOffManager/StandOffManager.cpp:246-250 | any decimal or hexadecimal numeral of a number, as a reference in front of a text, puts just these bytes in front of it, and one beyond the maximum is an error |
| References.PlainNamed | enju2tsubaki/StandOffManager/StandOffManager.cpp:229-245 | the five named references and the characters they stand for |
| Export.WriteSemiXml | enju2tsubaki/StandOffManager/StandOffManager.cpp:351-447 | succeeds exactly on spans inside the text ordered by begin, and writes empty tags, then end tags newest first, then the others at every offset |
| Export.WriteTagsAt | enju2tsubaki/StandOffManager/StandOffManager.cpp:362-408 | the three stages at one offset, and that an overdue end tag means a badly placed one |
| Import.ImportProper | enju2tsubaki/StandOffManager/StandOffManager.cpp:563-719 | whatever the input, an import yields a rooted list in which no two tags of one name cross |
| Import.StepSound | enju2tsubaki/StandOffManager/StandOffManager.cpp:601-698 | every token keeps the stacks ascending and the spans nested |
| Importer.SemiXmlLexer.Advance | enju2tsubaki/StandOffManager/StandOffManager.cpp:481-545 | the lexer with its lookahead delivers the tokens of the input one by one, or fails on an unterminated tag |
| Importer.ParseNameAttrs | enju2tsubaki/StandOffManager/TagData.cpp:5-48 | the name, and the lines behind it joined and trimmed |
| Importer.WriteText | enju2tsubaki/StandOffManager/StandOffManager.cpp:605-625 | a text token is written with its escape sequences replaced |
| Importer.ConvertEscapeChar | enju2tsubaki/StandOffManager/StandOffManager.cpp:261-279 | the sequence up to the semicolon is decoded and passed, or is an error |
| Importer.GetUscCode | enju2tsubaki/StandOffManager/StandOffManager.cpp:133-186 | decimal and hexadecimal character references, up to the Unicode maximum |
| Importer.StandOffManager.ReadTag | enju2tsubaki/StandOffManager/StandOffManager.cpp:626-698 | an end tag closes the newest open tag of its name, an empty tag and a start tag are appended |
| Importer.StandOffManager.ReadSemiXml | enju2tsubaki/StandOffManager/StandOffManager.cpp:563-719 | the reader's loops write the text and the tags that the automaton yields, and fail exactly when it fails |
| Importer.StandOffManager.AddAssign | enju2tsubaki/StandOffManager/StandOffManager.cpp:1021-1077 | the tag list becomes the merge of both lists, also when a manager is added to itself |
| RoundTrip.RunEvents | enju2tsubaki/StandOffManager/StandOffManager.cpp:601-698 | on the text of legible events the importer does what the token of each event asks for, runs of characters merged into one token |
| RoundTrip.SimEnd | enju2tsubaki/StandOffManager/StandOffManager.cpp:653-671 | the end tag written finds its own start tag on top of the stack of its name, because no two tags of the name cross |
| RoundTrip.SimAll | enju2tsubaki/StandOffManager/StandOffManager.cpp:351-447 | the importer's state follows the exporter's from any offset to the end of the text |
| RoundTrip.RoundTrip | enju2tsubaki/StandOffManager/StandOffManager.cpp:352-719 | importing an export gives back the same text and tag list if and only if names and attributes can be written inside a tag, the list is rooted, no two tags of one name cross and no tag with something inside ends in a slash |
| RoundTrip.SlashLost | enju2tsubaki/StandOffManager/StandOffManager.cpp:670-681 | a tag with something inside that ends in a slash is read as an empty tag, and the list is not given back |
| RoundTrip.Reimport | enju2tsubaki/StandOffManager/StandOffManager.cpp:352-719 | for any text and list the two programs run one after the other give everything back if and only if the export succeeds and that condition holds |
| Neat.ImportNeat | enju2tsubaki/StandOffManager/StandOffManager.cpp:563-719 | whatever the input, what was imported can be exported: spans in the text and in order, names and attributes that can be written inside a tag |
| Reexport.Reexported | enju2tsubaki/StandOffManager/StandOffManager.cpp:352-719 | for every input that can be imported, exporting and importing again changes nothing if and only if no tag with something inside ends in a slash |
| Reexport.Normalise | enju2tsubaki/StandOffManager/StandOffManager.cpp:352-719 | the three programs in sequence: the export never fails, and the second import gives the same under exactly that condition |
| Reexport.SlashExample | enju2tsubaki/StandOffManager/TagData.cpp:5-48 | an input whose import is not given back by export and import |
| Mapper.OneRegion | enju2tsubaki/StandOffManager/Mapper.cpp:32-46 | every offset of the clipped text lies in exactly one domain span |
| Mapper.PosMapIncreases | enju2tsubaki/StandOffManager/Mapper.cpp:39-46 | the map of offsets is strictly increasing |
| Mapper.SetSpanIsMap | enju2tsubaki/StandOffManager/Mapper.cpp:118-158 | adding a span keeps the regions of equal length, touching on one side and apart on the other |
| Mapper.PositionMapper.SetClippingSpan | enju2tsubaki/StandOffManager/Mapper.cpp:118-158 | the vectors become those of the specification, or the tags are refused as badly ordered |
| Mapper.PositionMapper.Map | enju2tsubaki/StandOffManager/Mapper.cpp:48-116 | both ends of a span are mapped as by a full search, or it lies outside; the search region handed on hides an empty tag exactly when that lies in an earlier region, which fails |
| Clip.ClipData | enju2tsubaki/StandOffManager/StandOffManager.cpp:867-927 | the clipped text and the tags written |
| Clip.ClipLaidOut | enju2tsubaki/StandOffManager/StandOffManager.cpp:897-920 | told from the tags alone: the clipped text is laid out as the mapper assumes if and only if the first region begins behind 0 or no relayed tag leaves a gap |
| Clip.MissingNewline | enju2tsubaki/StandOffManager/StandOffManager.cpp:897-920 | two regions, the first at offset 0, are clipped without the newline that the mapper counts on |
| Clip.MapperAccepts | enju2tsubaki/StandOffManager/Mapper.cpp:145-151 | the mapper refuses nothing that was clipped if and only if no tag that extends a region begins before it; tags in the order of their begins are such |
| Clip.SameCharacters | enju2tsubaki/StandOffManager/Mapper.cpp:39-46 | a span inside one region maps to a span of the original with the same characters |
| Clip.ClipUnite | enju2tsubaki/StandOffManager/StandOffManager.cpp:980-1016 | clip, annotate, unite: every offset can be mapped, and spans within a region return to the same characters |
| Clip.OrderKept | enju2tsubaki/StandOffManager/StandOffManager.cpp:1000-1010 | mapped tags keep their order, their emptiness, their names and attributes |
| Clip.MapFromIs | enju2tsubaki/StandOffManager/StandOffManager.cpp:1000-1010 | handing the search region from tag to tag maps all tags as full searches do if and only if no empty tag lies before the region handed to it |
| Clip.OutOfOrder | enju2tsubaki/StandOffManager/Mapper.cpp:55-81 | an empty tag in the second region and one in the first behind it: full searches map both, the region handed on hides the latter |
| Clip.SearchableByBegin | enju2tsubaki/StandOffManager/Mapper.cpp:55-81 | for tags in the order of their begins that is always so |
| Clip.ReadConformedPositions | enju2tsubaki/StandOffManager/StandOffManager.cpp:980-1016 | embedded tags in any order: all are mapped, or one lies outside the text, or the search for one fails |
| Merging.FindOrder | enju2tsubaki/StandOffManager/MergeHandler2.cpp:13-33 | 0 if the name is not in the tag order, else one more than the last place at which it stands |
| Merging.OrderIs | enju2tsubaki/StandOffManager/MergeHandler2.cpp:83-134 | Comp and the check of goNext in the fields of the tags: by begin, then the longer one first, then by tag order unless empty, then by file |
| Merging.OrderTotal | enju2tsubaki/StandOffManager/MergeHandler2.cpp:83-134 | Comp is irreflexive, negatively transitive and total up to tags of one file |
| Merging.Merge | enju2tsubaki/StandOffManager/MergeHandler2.cpp:320-346 | fails exactly when a file has a malformed line or an adjacent inversion; else of any two tags the first begins earlier, or ends later, or comes first by tag order and file number, and every file is there in its own order and nothing else |
| Merging.PushNext | enju2tsubaki/StandOffManager/MergeHandler2.cpp:137-171 | a head that passes the check of goNext belongs behind everything written |
| TwoFiles.MergeKeeps | enju2tsubaki/StandOffManager/StandOffManager.cpp:1021-1077 | no tag is lost or made up, and each list keeps its order |
| TwoFiles.MergeSorted | enju2tsubaki/StandOffManager/StandOffManager.cpp:1031-1067 | two lists sorted by begin, then the longer one, then tag order make a sorted one, with the tag of the second list first on ties |
| TwoFiles.WeakOrder | enju2tsubaki/StandOffManager/TagData.hpp:134-180 | AIsLessThanB is a strict weak order |
| TwoFiles.LessIs | enju2tsubaki/StandOffManager/TagData.hpp:134-165 | AIsLessThanB in the fields of the tags |
| TwoFiles.MergeLists | enju2tsubaki/StandOffManager/StandOffManager.cpp:1021-1077 | the loops compute the merge, whether the lists are sorted or not |
| BoolOps.AndOperation | search/documents.cc:4-43 | the merge loop on any two lists, with its special cases for empty and infinite ones |
| BoolOps.OrOperation | search/documents.cc:45-114 | likewise for the union |
| BoolOps.DupCheckOperation | search/documents.cc:373-421 | likewise for the difference |
| BoolOps.AndIs | search/documents.cc:4-43 | and_operation intersects, the infinite list included |
| BoolOps.OrIs | search/documents.cc:45-114 | or_operation unites, the infinite list included |
| BoolOps.DupCheckIs | search/documents.cc:373-421 | dup_check_operation removes the second set unless the first is infinite |
| BoolOps.AndAllIs | search/documents.cc:120-195 | over any number of children the strict list is the intersection of the strict sets, with the lenient list the intersection of the unions; both ascending, and disjoint |
| Evaluator.EvalExact | search/documents.cc:497-597 | at every node, on the ids it was asked for, the strict list holds exactly the documents that match |
| Evaluator.PruningExact | search/documents.cc:116-195 | for every query tree pruned evaluation yields the strict documents of unpruned evaluation, which are those that match |
| Evaluator.MaskedBits | search/documents.cc:656-673 | the feature test bit by bit: no condition bit in the query, or one that both words have |
| Evaluator.SearchId | search/documents.cc:641-666 | the binary search from the lower bound left by the target before finds the entry of an id exactly if there is one |
| Evaluator.Documents.ReadRetrieved | search/documents.cc:635-667 | loading by search over the sorted ids gives the entries that pass and were asked for, in order |
| Evaluator.Documents.ReadDidsWithFeature | search/documents.cc:626-681 | which entries are loaded, with and without retrieved ids |
| Evaluator.Documents.MergeAnd | search/documents.cc:116-222 | the lists and ids of a conjunction are those of the specification |
| Evaluator.Documents.MergeOr | search/documents.cc:423-495 | the lists and ids of a disjunction, its uncleared lenient list included |
| Evaluator.Documents.MergeAndOr | search/documents.cc:497-597 | the evaluation of any tree without phrases |
| Turns.LineIs | search/documents.cc:1120-1128 | reading begins with the lists in the order of their first positions, among equal ones by number, and leaves exactly the empty lists out |
| Heads.UpdateSortedInt | search/documents.cc:1261-1269 | one bubble pass puts the heads in order after one of them moved on, and the list that moved goes in front of equal ones |
| Heads.SortHeads | search/documents.cc:1120-1128 | the bubble sort in front of a walk orders the first positions, equal ones by list number, exhausted lists last |
| Heads.Advance | search/documents.cc:1141-1235 | reading the first head reads the positions of all lists in ascending order |
| Proximity.WalkAnd | search/documents.cc:1111-1257 | the windows are those of the reading order; each belongs to a close choice, none is missed, their averages are a legal input for the parent, and the last one decides the region |
| Proximity.WalkProx | search/documents.cc:1209-1250 | a document is kept if and only if one position can be chosen from every list within the distance, for distances below 10000 |
| Proximity.WalkTooFar | search/documents.cc:1246-1250 | from 10000 on there is a document that is close enough and is removed |
| Union.WalkOr | search/documents.cc:849-945 | the output is the strictly ascending union of the positions; each has the first of the heaviest entries in the reading order, score times square root of the phrases, and the score of every term is the sum of its kept scores |
| Union.SumReplace | search/documents.cc:910-934 | replacing the last entry by a heavier one keeps the sums per term right |
| Relevance.PickedIs | search/document.cc:99-108 | the positions that are kept are those that pass the feature test bit by bit, in order |
| Relevance.PickedCount | search/document.cc:99-108 | a position of a term is kept as often as it stands there if it shares a condition bit with the query, and else not at all |
| QueryWalk.GetPos | search/document.cc:84-154 | the loop of get_pos collects them and ends the list with -1 |
| Relevance.RelevantMatches | search/documents.cc:1367-1420 | a relevant document satisfies the Boolean query |
| Relevance.BooleanRelevant | search/documents.cc:1367-1420 | where a query asks nothing of positions, the Boolean query decides relevance |
| Relevance.NoLenient | search/slave_server.cc:47-80 | a query of strict and optional terms has no lenient documents, whatever stands where nothing is asked of a child |
| Relevance.TermRelevant | search/documents.cc:1367-1376 | a term, alone or under ROOT, is answered by the documents that have an entry sharing a condition bit with it |
| QueryWalk.WalkAndOr | search/documents.cc:1367-1420 | for every tree of strict and optional terms, ROOT included, the walk keeps a document exactly if it is relevant, and then gives the node exactly its positions there |
| QueryWalk.WalkConj | search/documents.cc:1383-1411 | the same for a conjunction: all children that are conditions must keep the document, and the lists of a PROX node come close |
| QueryWalk.WalkDisj | search/documents.cc:1383-1416 | the same for a disjunction: some child keeps the document, and the lists of those that have it are united, optional ones included |
| QueryWalk.KeptIfClose | search/documents.cc:1246-1250 | a PROX node keeps a document if and only if its lists come close: below 10000 a close choice exists, from there on the last window is not exactly 10000 |
| QueryWalk.ConjTold | search/documents.cc:1209-1257 | the list of an AND or PROX node are the middles of the windows of its children, so the walk above it depends on the query and the index alone |
| QueryWalk.UnionTold | search/documents.cc:849-945 | the merged list of an OR node is the ascending union of the positions of its relevant children |
| QueryWalk.UnionRelevant | search/documents.cc:1383-1416 | an optional alternative adds positions but no documents: what was retrieved and stands somewhere is relevant |
| QueryWalk.NextAsked | search/documents.cc:116-148 | a document retrieved by a conjunct is among the ids that the next conjunct is asked for, so pruning hides no child from the walk |
| Answers.Search | search/slave_server.cc:47-80 | a search with pruned evaluation and walk answers exactly the relevant documents, in ascending order, for queries headed by ROOT as for all others of strict and optional terms |
| Lisp.StringReader.From | search/lisp/lisp.c:702-716 | the reader with its moving pointer reads what the recursive description says |
| Lisp.WhiteIs | search/lisp/lisp.c:619-637 | blanks, tabs and line ends in front of an expression are skipped, and nothing else |
| Lisp.StringReader.Scan | search/lisp/lisp.c:351-392 | the characters of an atom, quoted ones included |
| Lisp.ScanIs | search/lisp/lisp.c:351-392 | which characters end an atom, plain or quoted, and where there is none |
| Lisp.NilIs | search/lisp/lisp.c:679-700 | the atom NIL is the empty list, read and printed |
| Lisp.PrintRead | search/lisp/lisp.c:497-542 | reading a printed tree of safe atoms gives the tree with its last atoms made elements, and the same tree if and only if its lists are proper |

## Left out

- CdbRun.Build: is about programs whose data section never leaves the 32 bits; a further call on a writer whose position has wrapped around is not described.
- CdbWriter.CdbMake.RemoveRecord: the file is not truncated, so stale bytes may follow the last table; no claim is made about the length of the file.
- CdbSeek.Seek: about finished files; on arbitrary files, and where a slot starts beyond 2^32 and its position wraps around, nothing is promised.
- HashTables.PackTable: a cell of the block is one slot or its two packed words; the bytes within a cell are not modelled one by one.
- Chains: the linked list of blocks is a sequence of blocks, so aliasing of `next` pointers is not captured.
- CdbPlus.Builder.Put: a further put after one whose offset did not fit is not described, and neither is closing after it.
- CdbPlus.Builder: the stream starts at offset 0; embedding a chunk elsewhere is not part of this model.
- CdbPlusReader.Reader.Get: is about images that a builder made, and tables that start within 32 bits or have no reference, because on others the probe loop, which has no counter and no bounds, need not end; ownership of the buffer and pointers into it are left out.
- Dump.DumpMode: the list mode, the map form and the statistics mode only print less or more of the same.
- Importer.StandOffManager.ReadSemiXml: what a failing import leaves in the tag list is not described.
- Importer.ParseNameAttrs: stream state beyond "at the end" is left out; a span in front of the name is read by `operator>>` and is not modelled.
- Merging.Merge: lines are given as parsed tags or malformed ones, empty lines left out; the priority queue of the library is a sequence with a search for its top.
- Evaluator.PruningExact: is about strict answers; a lenient term hands on only its finite ids, so pruning may drop lenient documents.
- Evaluator.Documents.MergeOr: the lenient list is modelled with its missing `clear`, and nothing is claimed of it.
- Evaluator.Documents: phrase nodes are left out; of a document only its id is kept, and the shared `Document` objects are not modelled.
- QueryWalk.WalkAndOr: a node is a value with the nodes of its children; taking a document out of the index of a node shows as `None`. Lenient terms as conditions, of which the query builder knows none, PHRASE and ORDERED_PROX nodes are left out of the walk, and so are trees on which it can read behind empty arrays: a conjunction of nothing but optional terms, a ROOT with one in front, and an OR node with an optional term beside a PROX node.
- QueryWalk.WalkConj: likewise.
- QueryWalk.WalkDisj: likewise.
- Answers.Search: deleted documents, document lengths and the final sort by score are left out.
- `Hashmap`, `DocumentBuffer`, `get_doc` and `remove_doc` would only add easy members; they stand here as membership in the lists of a node, which `Evaluator.IsEntry` restricts to ids below 1000000, the size of the array.
- Proximity.WalkAnd: ordered proximity, where the loop ends after the first tuple in order whether or not it is close, is left out; so are scores from children.
- Union.WalkOr: the Okapi score computed from the sums, and the document frequency and phrase count kept beside them, are left out.
- Lisp.StringReader.Scan: an atom longer than the buffer of 1024 characters is an error in the model and undefined in the code.
- Lisp.PrintRead: quoted atoms are read as the code reads them but are not part of the round trip, since the reader stops on the closing quote.
- Failing reads and writes, interrupted calls, memory exhaustion, memory mapping and the ordering of system calls.
- Document scoring, PageRank, sockets, CGI programs, option parsers, compressed streams and the C library glue.
