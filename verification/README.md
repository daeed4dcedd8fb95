# Verification of subconverter's core

subconverter reads proxy subscriptions in many formats and writes them in others. This project
models the parts of it that decide something themselves, and proves what they are for:

- the hand-written readers/writer lock of the download cache, as a transition system with one
  atomic access per step and spurious compare-and-swap failures, and `webGet` and `flushCache`
  running on top of it (`RWLock.dfy`, `DownloadCache.dfy`), and what a caller of `webGet` gets
  (`DownloadAlone.dfy`);
- `INIReader`, a class with a section map, a section order and a cached iterator, its parser and
  its printer, and what single lines and repeated sections mean (`IniModel.dfy`, `IniReader.dfy`,
  `IniRoundTrip.dfy`, `IniLines.dfy`, `IniSections.dfy`);
- MD5: the streaming buffer, the padding and the unrolled compression against RFC 1321
  (`Md5Rfc.dfy`, `Md5.dfy`), with its mixing functions and known digests (`Md5Vectors.dfy`);
- the text codecs: replacement, escapes, `split` and `join`, `getUrlArg`, base64 and
  percent-encoding (`StringUtil.dfy`, `Tokens.dfy`, `UrlArgs.dfy`, `Base64.dfy`, `UrlEncoding.dfy`);
- share links: the exporter, the link parsers with their dispatch and the backtracking search of
  their regular expressions, and the round trip of whole subscriptions (`Regex.dfy`,
  `ShareLinks.dfy`, `ShareLinksRoundTrip.dfy`, `ShareLinkArgs.dfy`);
- the generators: unique node names, policy groups, rule providers, and rulesets as Clash payloads
  in both directions (`NodeNames.dfy`, `NodeRanges.dfy`, `ProxyGroups.dfy`, `RuleProviders.dfy`,
  `RuleProviderKeys.dfy`, `RuleProviderTexts.dfy`, `Payload.dfy`, `PayloadRoundTrip.dfy`).

Code that updates state is imperative here too: INIReader and the MD5 state are classes, the node
loop renames the nodes of an array in place, and every loop of the original is a method with a loop,
proved equal to a specification function or to a stated property. The lemmas are about those
specifications: they relate them to each other, and fix what they mean by laws and texts written
with literal characters. A `std::string` is a Dafny string; where bytes matter, `IsBytes` says so.
`Common.dfy` holds what several files share.

Some properties one would expect do not hold of the code. Each is stated with the exact condition
under which it does hold:

- an empty chunk makes the MD5 state forget its buffered bytes (`Md5Text.EmptyChunkDropsTail`,
  `EmptyChunkExample`), and on a chunk so long that a 32-bit sum wraps the loop of `process` never
  ends (`Md5.ProcessEnds`, `LongChunkExample`);
- `getUrlArg` never looks at position 0 once its scan has stopped at position 1, which loses the
  argument for keys made of `=` signs only (`UrlArgs.WhenTheScanMisses`, `ScanMissExample`);
- `replaceAllDistinct` does not end for an empty old value (`StringUtil.EmptyIsAlwaysFound`);
- `base64Encode` keeps the length in 32 bits (`Base64.EncodeCutsLength`);
- escaping is undone exactly for strings without an escape sequence in them
  (`StringUtil.EscapeRoundTrip`), an INI value survives exactly without an escape sequence, a blank
  in front and trimmed white space at the end (`IniRoundTrip.ValueKept`), and splitting undoes
  joining exactly for lists of proper tokens (`Tokens.SplitJoin`);
- a WebSocket path of a Trojan node is encoded by the printer and not decoded by the parser, so that
  it comes back only if it needs no encoding; an SS node with a plugin loses the default group; an
  SSR node without obfuscation comes back as SS (`ShareLinksRoundTrip.ComesBackUnchanged`);
- an export that asks for one of SS and SSR prints the previous link again for exactly those nodes of
  the other kind that have no form in it (`ShareLinksRoundTrip.RepeatIff`; for lists `PrintedOwn` and
  `BacksOwn`; `RepeatExample`); asking for both kinds never does;
- Surge's `[Proxy]` section repeats the name DIRECT exactly when a supported node is called that
  (`NodeNames.SurgeProxySection`, `NodeCalledDirect`);
- a negated number filter loses the sign of its number (`NodeRanges.NegatedSign`);
- two rule providers can fall on one key. All RULE-SET rules find the behaviour and the address of
  their own ruleset exactly if there are no two rulesets of which one is called like the other with a
  suffix in use, is another list, and has a rule of its own or is defined later
  (`RuleProviderKeys.RuleProviderIntegrity`, where `Misleads` is that condition); so it is if no
  ruleset file is named with such a suffix (`EveryRuleFindsItsList`), and `KeysCanMeet` and
  `MeetingExample` show the rule for domains finding a list of addresses;
- a list of rules survives printing and reading as a payload exactly if each of its patterns does,
  under the conditions of `PayloadRoundTrip.DomainKept`, `SuffixKept` and `CidrKept`; a suffix that
  ends in `.*` turns into a keyword.

Check everything with `dafny verify dfyconfig.toml`.

## Model

| member | source | states |
|---|---|---|
| RWLock.Safety | src/lib/handler/webget.cpp:45-91 | in every interleaving of any number of threads a writer excludes all other holders, the counters equal the number of holders and of announced writers, the owner id names only the owner, and writeUnlock never throws |
| RWLock.StepInv | src/lib/handler/webget.cpp:45-91 | the invariant behind safety survives every atomic access of every thread, spurious CAS failures and reads nested in a write included |
| RWLock.BoundedOvertaking | src/lib/handler/webget.cpp:50-53 | while a writer stays announced, the readers let in plus those still at the reader CAS never exceed those that were there at the start |
| RWLock.Drain | src/lib/handler/webget.cpp:62-91 | letting only the holders run, every hold is released and no other thread moves |
| RWLock.Acquire | src/lib/handler/webget.cpp:45-80 | with the lock free and no writer announced but itself, a waiting thread gets in by running alone |
| RWLock.RunWriters | src/lib/handler/webget.cpp:62-91 | with no hold, all announced writers can run through one after the other while nobody else moves |
| RWLock.Progress | src/lib/handler/webget.cpp:45-91 | from every reachable state every waiting thread has a continuation in which that very thread gets in |
| RWLock.JoinReaders | src/lib/handler/webget.cpp:45-61 | with no writer inside or announced and any number of readers inside, every thread in readLock gets in by turns of its own alone, and no other thread moves |
| RWLock.AllReading | src/lib/handler/webget.cpp:45-61 | any number of threads can be inside for reading at the same time, all of them in one reachable state |
| RWLock.NestedRead | src/lib/handler/webget.cpp:47-67 | a reader lock taken and released inside a write lock touches no counter and leaves the thread where it was |
| DownloadCache.NextInv | src/lib/handler/webget.cpp:318-391 | every step of webGet, flushCache, a transfer or the clock keeps the cache invariant: a file is a finished body of its own URL unless a writer is inside |
| DownloadCache.SaveInv | src/lib/handler/webget.cpp:354-359 | writing a file character by character under the write lock keeps it, also when two threads save the same URL |
| DownloadCache.ReadWhole | src/lib/handler/webget.cpp:340-348 | a reader that reaches the end holds a body that was completely written, no earlier than the mtime tested before the lock was taken |
| DownloadCache.FlushEmpties | src/lib/handler/webget.cpp:385-391 | once a flush has gone through the files it saw under the write lock, there is no file left |
| DownloadCache.ProvenanceAndFreshness | src/lib/handler/webget.cpp:318-391 | over all concurrent runs every reply names its outcome: after a completed transfer with status 200 it is exactly the body of that transfer, cached or not; after any other one it is empty or, if serving stale files is on, a whole earlier body; a cache hit is empty, as after a flush, or a whole body of that URL, written no earlier than the mtime that passed the TTL test, and so at most the TTL old when it was tested |
| DownloadAlone.WebGetAlone | src/lib/handler/webget.cpp:318-391 | called alone, webGet answers the file if its mtime passes the TTL test, else the body of a completed transfer with status 200, which it saves if caching is on, else the old file if it may serve it and there is one, else nothing; the files are as described afterwards |
| DownloadAlone.FlushAlone | src/lib/handler/webget.cpp:385-391 | called alone, flushCache leaves no file |
| DownloadAlone.ServesTheFile | src/lib/handler/webget.cpp:333-348 | with other threads running in between, a call that may serve the file, and whose file is left alone, answers the whole file |
| Md5.Digester.Compress | src/lib/utils/md5/md5.cpp:417-549 | the unrolled in-place rounds leave the registers as the 64-step loop of section 3.4 of RFC 1321 does, for every block and state |
| Md5.Digester.Round1 | src/lib/utils/md5/md5.cpp:447-462 | sixteen in-place FF calls are steps 0 to 15 of the rotating loop |
| Md5.Digester.ProcessBlock | src/lib/utils/md5/md5.cpp:417-549 | one 64-byte block advances registers and the two-word length, with carry |
| Md5Vectors.FSelects | src/lib/utils/md5/md5.cpp:38 | F selects: under the bits of x it is y, elsewhere z |
| Md5Vectors.GSelects | src/lib/utils/md5/md5.cpp:39 | G selects by z: there it is x, elsewhere y |
| Md5Vectors.HSymmetric | src/lib/utils/md5/md5.cpp:40 | H is symmetric and is undone by exclusive or |
| Md5Vectors.ISelects | src/lib/utils/md5/md5.cpp:41 | I is the complement of y where x is set or z is not, and y elsewhere |
| Md5Vectors.EmptyDigest | src/lib/utils/md5/md5.cpp:12-29 | the digest of nothing is d41d8cd98f00b204e9800998ecf8427e, as section A.5 of RFC 1321 lists it |
| Md5Vectors.AbcDigest | src/lib/utils/md5/md5.cpp:12-29 | the digest of "abc" is 900150983cd24fb0d6963f7d28e17f72, as section A.5 of RFC 1321 lists it |
| Md5.Digester.Process | src/lib/utils/md5/md5.cpp:195-234 | the consumed blocks and the buffered tail are always the input so far; the message grows by the chunk, or loses its tail if the chunk is empty; for every chunk on which the loop ends |
| Md5.ProcessEnds | src/lib/utils/md5/md5.cpp:195-234 | the loop with its uint32 sums ends if and only if no sum wraps: the chunk is below 2^32 - 64 bytes with nothing buffered, or together with the buffered bytes below 2^32 |
| Md5.LongChunkExample | src/lib/utils/md5/md5.cpp:216-219 | 2^32 - 64 bytes are the least that never end with nothing buffered |
| Md5.BitLength | src/lib/utils/md5/md5.cpp:278-286 | the masked and shifted length words are 8 times the byte length modulo 2^64, low word first |
| Md5.PadWith | src/lib/utils/md5/md5.cpp:260-286 | tail, 0x80, zeros and length words make the padding of sections 3.1 and 3.2 of RFC 1321 for every buffer size |
| Md5.Digester.Finish | src/lib/utils/md5/md5.cpp:254-311 | the signature is the RFC 1321 digest of everything processed |
| Md5Message.AbsorbAppend | src/lib/utils/md5/md5.cpp:213-218 | compressing whole blocks of one part and then the rest is compressing the concatenation |
| Md5Text.DigestChunks | src/lib/utils/md5/md5.cpp:195-311 | any cut of a message into non-empty chunks, each one on which process ends, gives the digest of the whole message |
| Md5Text.EmptyChunkDropsTail | src/lib/utils/md5/md5.cpp:225-230 | a chunk is appended if and only if it is non-empty or nothing was buffered |
| Md5Text.EmptyChunkExample | src/lib/utils/md5/md5.cpp:225-230 | one byte and an empty chunk leave nothing |
| Md5Text.GetMd5 | src/lib/utils/md5/md5_interface.h:8-48 | the 32 hexadecimal digits of the digest of the data cut to its length modulo 2^32 |
| Md5Text.SigToString | src/lib/utils/md5/md5.cpp:597-619 | two hexadecimal digits a byte, as many bytes as fit the buffer |
| Md5Text.HexInjective | src/lib/utils/md5/md5.cpp:597-619 | different signatures have different texts |
| Md5Text.SigFromString | src/lib/utils/md5/md5.cpp:640-654 | the result is the one signature whose text was given |
| StringUtil.ReplaceAllDistinct | src/lib/utils/string.cpp:301-311 | the loop that edits its own string terminates and replaces the leftmost non-overlapping occurrences in one pass |
| StringUtil.EmptyIsAlwaysFound | src/lib/utils/string.cpp:301-311 | an empty old value is found in every round, so that the loop does not end |
| StringUtil.ProcessEscapeChar | src/lib/utils/string.cpp:96-121 | the in-place loop replaces exactly the escape sequences of the original text |
| StringUtil.ProcessEscapeCharReverse | src/lib/utils/string.cpp:123-145 | the in-place loop escapes every line feed, return and tab |
| StringUtil.EscapeRoundTrip | src/lib/utils/string.cpp:96-145 | unescaping undoes escaping if and only if the text holds no escape sequence |
| StringUtil.EscapeLetters | src/lib/utils/string.cpp:96-145 | the three escapes are \\n, \\r and \\t, and a backslash before anything else stays |
| StringUtil.LinesOfUnlines | src/lib/utils/ini_reader/ini_reader.h:249 | getline returns exactly the lines that were written with line feeds |
| StringUtil.DecimalRoundTrip | src/lib/utils/string.cpp:381-397 | printed numbers read back |
| Tokens.Split | src/lib/utils/string.cpp:11-51 | the nested loops collect the maximal runs between separator characters, and no empty ones |
| Tokens.SplitJoin | src/lib/utils/string.cpp:11-51 | splitting a joined list gives the list back if and only if no string is empty or holds a separator and, if there are no separators, there is at most one string |
| UrlArgs.GetUrlArg | src/lib/utils/string.cpp:281-298 | the backward scan terminates and returns the value after the last "key=" at the start or after '&' or '?', unless it skips position 0 |
| UrlArgs.WhenTheScanMisses | src/lib/utils/string.cpp:281-298 | it skips if and only if the key is all '=', the text starts with two more of them, and there is no later hit |
| UrlArgs.ScanMissExample | src/lib/utils/string.cpp:281-298 | in "==" the argument with the empty key is missed |
| UrlArgs.AppendPair | src/lib/utils/string.cpp:281-298 | appending "&key=value" changes the answer for that key only |
| UrlArgs.QueryArg | src/lib/utils/string.cpp:281-298 | on joined pairs the answer is the value of the last pair with the key, or "" |
| UrlArgs.AddressArg | src/lib/utils/string.cpp:281-298 | so it is in an address with the query after its "?" |
| Base64.Base64Encode | src/lib/utils/base64/base64.cpp:10-57 | the index loop is section 4 of RFC 4648 on the text cut to its length modulo 2^32 |
| Base64.Base64Decode | src/lib/utils/base64/base64.cpp:59-129 | the loop decodes up to the first '=' and copies characters outside the alphabet |
| Base64.DecodeEncode | src/lib/utils/base64/base64.cpp:10-129 | decoding undoes encoding of every byte string, in both modes |
| Base64.EncodeCutsLength | src/lib/utils/base64/base64.cpp:13-15 | the round trip holds if and only if the text has fewer than 2^32 bytes |
| Base64.UrlSafeDecodeIsPlain | src/lib/utils/base64/base64.cpp:131-144 | for every input whatever, url-safe decoding is plain decoding of the reversed substitution |
| Base64.UrlSafeRoundTrip | src/lib/utils/base64/base64.cpp:136-149 | the url-safe form without padding decodes to the byte string it came from |
| Base64.UrlSafeAlphabet | src/lib/utils/base64/base64.cpp:136-149 | the url-safe form has letters, digits, '-' and '_' only |
| Base64.TestVectors | src/lib/utils/base64/base64.cpp:5-57 | "", "f", "fo" and "foobar" are encoded as section 10 of RFC 4648 lists them |
| Base64.AlphabetCorners | src/lib/utils/base64/base64.cpp:5-149 | the letters at both ends of each range of the alphabet, and the letters that the url-safe form replaces |
| UrlEncoding.UrlEncode | src/lib/utils/urlencode.cpp:24-44 | the loop percent-encodes all but unreserved characters |
| UrlEncoding.UrlDecode | src/lib/utils/urlencode.cpp:46-71 | the index loop decodes, and stops at a '%' with fewer than two characters after it |
| UrlEncoding.UrlRoundTrip | src/lib/utils/urlencode.cpp:5-71 | decoding undoes encoding of every byte string |
| UrlEncoding.FormRoundTrip | src/lib/utils/urlencode.cpp:46-71 | text encoded with digits of either case, and with "+" for blanks, decodes to itself |
| UrlEncoding.BareSign | src/lib/utils/urlencode.cpp:54-65 | a "%" before other characters stays, and one with fewer than two characters after it ends the text |
| UrlEncoding.LettersCountOn | src/lib/utils/urlencode.cpp:10-22 | letters behind F count on, and what does not fit an octet is cut off |
| UrlEncoding.EncodedAlphabet | src/lib/utils/urlencode.cpp:24-44 | the encoded text is safe inside a query |
| UrlEncoding.PlainCharacters | src/lib/utils/urlencode.cpp:30-41 | exactly letters, digits and the four marks stay, and other octets are written with capital digits |
| UrlEncoding.EncodeIsIdentity | src/lib/utils/urlencode.cpp:24-44 | encoding changes nothing if and only if all characters are unreserved |
| UrlEncoding.EncodedQueryArg | src/lib/utils/string.cpp:281-298 | an argument of a query of encoded values decodes to the value of the last pair with that key |
| IniModel.InsertSorted | src/lib/utils/ini_reader/ini_reader.h:727-749 | inserting keeps a section in the order of its names |
| IniModel.InsertValues | src/lib/utils/ini_reader/ini_reader.h:727-749 | a new item comes last under its name and changes no other name |
| IniModel.WithoutValues | src/lib/utils/ini_reader/ini_reader.h:845-858 | erasing a name takes all its values and no others |
| IniModel.LessAtDifference | src/lib/utils/ini_reader/ini_reader.h:24-25 | names are ordered by their first difference, and a prefix comes first |
| IniModel.MergeValues | src/lib/utils/ini_reader/ini_reader.h:268-269 | merging puts the new values of a name behind the old ones |
| IniModel.PrefixMembers | src/lib/utils/ini_reader/ini_reader.h:506-522 | the values under a prefix are those of the items whose name is the prefix and any rest |
| IniReader.INIReader.constructor | src/lib/utils/ini_reader/ini_reader.h:169-172 | a new reader is empty and valid |
| IniReader.INIReader.EnterSection | src/lib/utils/ini_reader/ini_reader.h:373-380 | the cached node is that of the entered section, or nothing changes |
| IniReader.INIReader.ItemExist | src/lib/utils/ini_reader/ini_reader.h:393-405 | the answer through the cache is the answer of the plain map |
| IniReader.INIReader.GetItems | src/lib/utils/ini_reader/ini_reader.h:469-494 | the items through the cache are those of the plain map, with the error codes |
| IniReader.INIReader.GetAll | src/lib/utils/ini_reader/ini_reader.h:506-522 | all values under a name prefix are appended, in the order of the plain map |
| IniReader.INIReader.Get | src/lib/utils/ini_reader/ini_reader.h:535-552 | the first value under the name in the plain map, or "" |
| IniReader.INIReader.Set | src/lib/utils/ini_reader/ini_reader.h:727-749 | one item is added to one section, which joins the order once; cache and order stay coherent |
| IniReader.INIReader.Erase | src/lib/utils/ini_reader/ini_reader.h:845-858 | the number of erased values is returned and only they are gone |
| IniReader.INIReader.EraseFirst | src/lib/utils/ini_reader/ini_reader.h:870-883 | the first value under the name goes; an unknown section throws |
| IniReader.INIReader.EraseSection | src/lib/utils/ini_reader/ini_reader.h:896-905 | the section stays with no items and is not cached any more |
| IniReader.INIReader.RemoveSection | src/lib/utils/ini_reader/ini_reader.h:920-931 | the section leaves the map and the order, and no stale cache stays |
| IniReader.INIReader.EraseAll | src/lib/utils/ini_reader/ini_reader.h:460-467 | everything is reset, the cache included |
| IniReader.INIReader.CloseAtNextTitle | src/lib/utils/ini_reader/ini_reader.h:259-282 | a repeated section in the middle is merged into a copy and so lost, or refused |
| IniReader.INIReader.CloseLast | src/lib/utils/ini_reader/ini_reader.h:311-331 | a repeated last section is merged in place, or refused |
| IniReader.INIReader.ReadLine | src/lib/utils/ini_reader/ini_reader.h:249-309 | the loop body does to the reader's fields what the line means for the document |
| IniReader.INIReader.Parse | src/lib/utils/ini_reader/ini_reader.h:219-334 | map, order, status and error code are those of the parsed text, and the cache is coherent afterwards |
| IniReader.INIReader.ToString | src/lib/utils/ini_reader/ini_reader.h:945-979 | the text is the lines of the sections in order, with a blank line unless the last value is empty |
| IniLines.RemarkSkipped | src/lib/utils/ini_reader/ini_reader.h:252-255 | a line that is blank, or starts with ";", "#" or "//", changes nothing outside direct-save sections |
| IniLines.RemarkInText | src/lib/utils/ini_reader/ini_reader.h:219-334 | adding such a line anywhere outside direct-save sections changes neither map, order, status nor code of the parsed text |
| IniLines.ItemAdded | src/lib/utils/ini_reader/ini_reader.h:287-308 | "name = value" with any spaces adds that item to a kept section, is ignored in an excluded one, and is an error before any section |
| IniSections.TitleStarts | src/lib/utils/ini_reader/ini_reader.h:257-285 | a title starts its section, which is ignored if it is excluded or not among the included ones; reading stops when all of those have been read |
| IniSections.TitleStores | src/lib/utils/ini_reader/ini_reader.h:262-282 | the section before is stored and comes last in the order; a repeated one is an error, or its items are lost |
| IniSections.TitleSkips | src/lib/utils/ini_reader/ini_reader.h:262-282 | nothing is stored of an empty section that is not kept, nor of the isolated lines before a title of their section |
| IniSections.DirectLine | src/lib/utils/ini_reader/ini_reader.h:287-290 | in a direct-save section every line is stored without a name, remarks and items too |
| IniSections.NamelessLine | src/lib/utils/ini_reader/ini_reader.h:287-290 | elsewhere a line without "=" is stored so if any line is, and skipped otherwise |
| IniSections.RepeatedLast | src/lib/utils/ini_reader/ini_reader.h:310-330 | a section printed twice at the end of a text is merged if repetition is allowed or it is the isolated one, and refused otherwise |
| IniSections.RepeatedInside | src/lib/utils/ini_reader/ini_reader.h:262-282 | followed by another section, the items printed second are lost |
| IniSections.BeforeAnyTitle | src/lib/utils/ini_reader/ini_reader.h:239-246 | an item before any title goes to the isolated section, and without one is an error |
| IniSections.MarkDropped | src/lib/utils/ini_reader/ini_reader.h:219-235 | a byte order mark in front changes nothing |
| IniSections.PrintedForms | src/lib/utils/ini_reader/ini_reader.h:945-979 | the printed lines of empty sections, named and nameless items |
| IniRoundTrip.ParseNamedLine | src/lib/utils/ini_reader/ini_reader.h:292-308 | a printed item line adds that very item, line breaks and tabs in the value included |
| IniRoundTrip.ReadNamedLine | src/lib/utils/ini_reader/ini_reader.h:292-308 | a printed item with a proper name is read under that name, whatever its value is |
| IniRoundTrip.ValueKept | src/lib/utils/ini_reader/ini_reader.h:249-308 | the value read is the value printed if and only if it holds no escape sequence, starts with no blank and ends in no white space but a line break or a tab |
| IniRoundTrip.ParseSection | src/lib/utils/ini_reader/ini_reader.h:249-309 | the printed lines of a section rebuild the section after the one before is stored |
| IniRoundTrip.RoundTrip | src/lib/utils/ini_reader/ini_reader.h:219-334 | parsing a printed well-formed document rebuilds the same section order and the same items of every section |
| IniRoundTrip.Reload | src/lib/utils/ini_reader/ini_reader.h:945-979 | ToString of one reader and Parse of another leave both with the same map and order |
| ShareLinks.ProxyToSingle | src/lib/generator/config/subexport.cpp:853-936 | the loop with its left-over link variable prints the links, and repetitions, of the specification |
| ShareLinks.PrintSsr | src/lib/generator/config/subexport.cpp:883-897 | the pieces form an SSR link whose arguments are a query of url-safe values |
| ShareLinks.PrintTrojan | src/lib/generator/config/subexport.cpp:911-925 | the pieces form a Trojan link whose arguments are a query |
| ShareLinkArgs.PrintedKinds | src/lib/generator/config/subexport.cpp:861-925 | for every number of kinds, a node is printed in its own form if its bit is set, and otherwise in the other one of SS and SSR if that is asked for and can say the same |
| Regex.Found | src/lib/utils/regexp.cpp:166-195 | the search finds the first place with a match, and the groups it captures are there, of their classes and lengths, with the characters between them |
| Regex.FoundIff | src/lib/utils/regexp.cpp:166-195 | a match is found if and only if groups that fit stand somewhere in the text: backtracking misses none |
| Regex.MatchReads | src/lib/utils/regexp.cpp:166-195 | a text that is fields with the characters of the expression between them, where no other division comes first, is matched as exactly these fields |
| Regex.RunEnds | src/lib/parser/subparser.cpp:361 | a dot stops at a line feed, \\S at white space and \\d at anything but a digit |
| ShareLinks.ExplodeSS | src/lib/parser/subparser.cpp:337-377 | editing the text in place yields the node that its marks and the first matches of its expressions describe |
| ShareLinks.ExplodeSSR | src/lib/parser/subparser.cpp:531-566 | the same for SSR |
| ShareLinks.ExplodeTrojan | src/lib/parser/subparser.cpp:726-769 | the same for Trojan |
| ShareLinks.ExplodeSub | src/lib/parser/subparser.cpp:2127-2148 | the nodes of all recognised lines are appended in order |
| ShareLinkArgs.AnyBreaks | src/lib/parser/subparser.cpp:2134-2147 | the links of a subscription may be parted by line feeds with or without a carriage return, by carriage returns or by blanks |
| ShareLinksRoundTrip.SchemeOf | src/lib/parser/subparser.cpp:2065-2084 | a link with one "://" contains another "name://" if and only if its scheme ends with that name |
| ShareLinksRoundTrip.Chosen | src/lib/parser/subparser.cpp:2065-2084 | each scheme goes to its own parser: ssr, vmess and vmess1, ss, socks with its two Telegram forms, the two Telegram forms of http, Netch, trojan, and http and https links |
| ShareLinksRoundTrip.NoneChosen | src/lib/parser/subparser.cpp:2065-2084 | a text without "://" and the Telegram forms makes no node |
| ShareLinksRoundTrip.SsNodeBack | src/lib/parser/subparser.cpp:337-377 | a printed SS link parses to its node, up to the group and an empty remark |
| ShareLinksRoundTrip.LegacyBack | src/lib/parser/subparser.cpp:366-370 | a link whose cipher, password, host and port are encoded together parses to that node |
| ShareLinkArgs.SsText | src/lib/parser/subparser.cpp:337-377 | whatever the arguments of an SS link, its group and plugin are those of their last values, the options being what follows the first ";" |
| ShareLinkArgs.AccountShape | src/lib/parser/subparser.cpp:358-372 | whatever the text, no field of an account is empty or holds white space, and its port is digits |
| ShareLinksRoundTrip.SsrNodeBack | src/lib/parser/subparser.cpp:531-566 | a printed SSR link parses to its node, or to an SS node for a shared cipher without obfuscation |
| ShareLinkArgs.SsrText | src/lib/parser/subparser.cpp:531-566 | whatever the arguments of an SSR link, group, remark and parameters are their decoded last values, with the defaults for empty ones |
| ShareLinkArgs.SsrShape | src/lib/parser/subparser.cpp:531-556 | the same for the fields of an SSR link |
| ShareLinkArgs.UnsetFields | src/lib/parser/subparser.cpp:337-377 | whatever the text, fields that no link of a kind carries stay unset, and a text that is no link leaves all unset |
| ShareLinksRoundTrip.TrojanNodeBack | src/lib/parser/subparser.cpp:726-769 | a printed Trojan link parses to its node with the path still encoded |
| ShareLinkArgs.TrojanText | src/lib/parser/subparser.cpp:726-769 | a Trojan link with any arguments is cut into login, arguments and remark |
| ShareLinkArgs.TrojanFields | src/lib/parser/subparser.cpp:747-768 | its host is sni or else peer, its path is read with ws=1 only, and group and switches have the last values of their keys |
| ShareLinkArgs.FlagTexts | src/lib/utils/tribool.h:87-107 | a switch is on for true, 1 and numbers above, off for false and 0, and left open otherwise |
| ShareLinkArgs.NumberTexts | src/lib/utils/string.cpp:381-397 | a number is read with or without a sign and up to its last digit |
| ShareLinkArgs.PortWraps | src/lib/parser/subparser.cpp:531-566 | a port counts modulo 65536 |
| ShareLinkArgs.SpacesGo | src/lib/parser/subparser.cpp:541-556 | white space in a parameter of an SSR link goes |
| ShareLinksRoundTrip.LinkBack | src/lib/parser/subparser.cpp:2065-2084 | dispatch and parser together read any printed link back |
| ShareLinksRoundTrip.PrintedBack | src/lib/generator/config/subexport.cpp:863-930 | the printed lines of any list read as its nodes in order, a repeated link as the node before |
| ShareLinksRoundTrip.RoundTrip | src/lib/generator/config/subexport.cpp:853-936 | decoding, cutting and parsing the base64 export of any list of well-formed nodes, for any choice of kinds, gives the nodes back in order |
| ShareLinksRoundTrip.RepeatIff | src/lib/generator/config/subexport.cpp:883-903 | the previous link is printed again if and only if exactly one of SS and SSR is asked for and the node is of the other kind without a form in it |
| ShareLinksRoundTrip.PrintedOwn | src/lib/generator/config/subexport.cpp:863-930 | the printed links are the nodes' own links, one each, if and only if the list holds no such node |
| ShareLinksRoundTrip.BacksOwn | src/lib/generator/config/subexport.cpp:863-930 | what is read back is each printed node's own image if and only if no such node comes after a printed one |
| ShareLinksRoundTrip.RepeatExample | src/lib/generator/config/subexport.cpp:883-903 | two SS nodes, the second with a plugin, exported as SSR: the same link twice |
| ShareLinksRoundTrip.ComesBackUnchanged | src/lib/generator/config/subexport.cpp:853-936 | a node comes back equal if and only if it is canonical; a WebSocket path must be unreserved |
| NodeNames.Pigeonhole | src/lib/generator/config/subexport.cpp:170-174 | a list cannot hold more numbered forms of one name than it has entries |
| NodeNames.ProcessRemark | src/lib/generator/config/subexport.cpp:158-176 | the loop ends within one try more than there are names, with the first free form |
| NodeNames.NameNodes | src/lib/generator/config/subexport.cpp:234-453 | all nodes are renamed in place in order; the list of names and the node list agree entry by entry |
| NodeNames.RenamingUnique | src/lib/generator/config/subexport.cpp:234-453 | nodes and format determine all names |
| NodeNames.NamesDistinct | src/lib/generator/config/subexport.cpp:234-453 | emitted names are pairwise distinct for any remarks |
| NodeNames.BaseIsEmitted | src/lib/generator/config/subexport.cpp:620-773 | the unnumbered name of every supported node is given to some node |
| NodeNames.ReservedName | src/lib/generator/config/subexport.cpp:158-176 | a name without a blank is given out if and only if a supported node asks for it |
| NodeNames.SurgeProxySection | src/lib/generator/config/subexport.cpp:618-773 | the names of the section with DIRECT are distinct if and only if no supported node is called DIRECT |
| NodeNames.NodeCalledDirect | src/lib/generator/config/subexport.cpp:618-773 | one supported node called DIRECT keeps that name, and the section has it twice |
| NodeNames.CommasAreQuoted | src/lib/generator/config/subexport.cpp:160-167 | a remark with a comma is put in quotes, and only such a one |
| NodeNames.SecondOfTwo | src/lib/generator/config/subexport.cpp:168-174 | the second of two equal nodes gets " 2" |
| NodeNames.TypeInFront | src/lib/generator/config/subexport.cpp:234-250 | where asked for, the type stands in brackets in front |
| NodeRanges.MatchRange | src/lib/generator/config/subexport.cpp:63-112 | the loop over the comma-separated parts decides by the last negated part and the parts after it |
| NodeRanges.FilterBack | src/lib/generator/config/subexport.cpp:63-112 | any list of parts written with commas is cut and classified as exactly these parts |
| NodeRanges.Meaning | src/lib/generator/config/subexport.cpp:63-112 | what a number, a range, an open range and their negations admit, as texts |
| NodeRanges.Overruled | src/lib/generator/config/subexport.cpp:63-112 | parts that are not negated are alternatives, and a negated part overrules what is before it |
| NodeRanges.NothingSaid | src/lib/generator/config/subexport.cpp:63-112 | a part with any other character says nothing |
| NodeRanges.NegatedSign | src/lib/generator/config/subexport.cpp:86-91 | "!-n" keeps out n and admits -n |
| ProxyGroups.GroupGenerate | src/lib/generator/config/subexport.cpp:178-212 | one rule adds its literal, or each matched node not yet there, in node order |
| ProxyGroups.TakenOnce | src/lib/generator/config/subexport.cpp:206-210 | a name is in a group if and only if it was offered; once for every literal and at most once for all matches |
| ProxyGroups.OffersOf | src/lib/generator/config/subexport.cpp:178-212 | literals come from literal rules and matches from filters that match a node of that name, and from nothing else |
| ProxyGroups.GenerateGroups | src/lib/generator/config/subexport.cpp:472-531 | each group name appears once, where it was first defined, with its last definition |
| ProxyGroups.FirstNamesDistinct | src/lib/generator/config/subexport.cpp:519-530 | final group names are distinct |
| ProxyGroups.GroupIntegrity | src/lib/generator/config/subexport.cpp:234-531 | over named nodes no group is empty without a provider, every entry is a literal, the fallback or an emitted node, and each matched node is in once |
| RuleProviders.FileNameStem | src/lib/generator/template/templates.cpp:297-310 | a path with directory and extension is named by its stem |
| RuleProviderTexts.FileNameForms | src/lib/generator/template/templates.cpp:297-310 | backslashes count where there is no slash, an extension may be missing, and a path without either loses its first character |
| RuleProviders.PolicyThird | src/lib/generator/template/templates.cpp:351-354 | the policy becomes the third field, in front of the options |
| RuleProviders.RenderClashScript | src/lib/generator/template/templates.cpp:312-513 | the two loops over eight tables emit the rules and providers of the named rulesets |
| RuleProviders.ScanLines | src/lib/generator/template/templates.cpp:424-457 | keyword rules are emitted in order, and the domain and address flags say whether such a line exists |
| RuleProviderTexts.LineFlags | src/lib/generator/template/templates.cpp:452-455 | a list has domains, or addresses, exactly if a line starts as such a rule |
| RuleProviderTexts.KeywordRule | src/lib/generator/template/templates.cpp:424-450 | a keyword line becomes a rule with the policy, with or without a carriage return |
| RuleProviderTexts.PlainRules | src/lib/generator/template/templates.cpp:333-356 | "[]FINAL" becomes MATCH, and other rules keep their name |
| RuleProviderKeys.BuildClaims | src/lib/generator/template/templates.cpp:328-464 | after any rulesets the names are distinct and the RULE-SET rules are those that the rulesets make, in order |
| RuleProviderKeys.LastOneWins | src/lib/generator/template/templates.cpp:465-513 | a key holds what the last ruleset that defines it has put there |
| RuleProviderKeys.RuleProviderIntegrity | src/lib/generator/template/templates.cpp:328-513 | names are distinct, every RULE-SET rule names a defined key, and every rule finds the behaviour and the address of its own ruleset if and only if no two rulesets meet on a key as another list where the one with the bare name has a rule or is later |
| RuleProviderKeys.EveryRuleFindsItsList | src/lib/generator/template/templates.cpp:328-513 | so it is whenever no file is named with the suffix _domain or _ipcidr |
| RuleProviderKeys.KeysCanMeet | src/lib/generator/template/templates.cpp:465-513 | rulesets that meet: the rule for domains finds a list of addresses |
| RuleProviderKeys.MeetingExample | src/lib/generator/template/templates.cpp:465-513 | two concrete rulesets, the rule of the first and the wrong list that it finds |
| RuleProviderTexts.ProviderAsks | src/lib/generator/template/templates.cpp:465-513 | the address of a provider asks for the type of its behaviour and decodes to its own list |
| RuleProviderTexts.ClashClaim | src/lib/generator/template/templates.cpp:372-392 | the rule of a Clash list finds the list itself with the behaviour of its kind |
| RuleProviderTexts.FetchedClaims | src/lib/generator/template/templates.cpp:393-464 | the rules of another list are one for its domains and one for its addresses, or in classical mode one for all, each asking for that list in that form |
| RuleProviderTexts.LastInterval | src/lib/generator/template/templates.cpp:465-513 | the interval of a provider is the last one given that is not 0, or that of the base configuration |
| Payload.PrintPayload | src/lib/handler/interfaces.cpp:191-298 | the loop prints the second fields of the rules of one kind, or a placeholder |
| Payload.ConvertPayload | src/lib/generator/config/ruleconvert.cpp:36-79 | the loop turns each payload line into a rule line |
| Payload.ConvertLine | src/lib/generator/config/ruleconvert.cpp:45-77 | editing a line in place gives the rule its first characters ask for |
| PayloadRoundTrip.DomainKept | src/lib/generator/config/ruleconvert.cpp:45-77 | a DOMAIN pattern reads back if and only if it is plain |
| PayloadRoundTrip.SuffixKept | src/lib/generator/config/ruleconvert.cpp:45-77 | a DOMAIN-SUFFIX pattern reads back if and only if it is plain and does not end in ".*" |
| PayloadRoundTrip.DottedKept | src/lib/generator/config/ruleconvert.cpp:62-78 | a pattern with a dot in front becomes a suffix rule without it |
| PayloadRoundTrip.StarsMakeKeyword | src/lib/generator/config/ruleconvert.cpp:62-78 | a suffix pattern followed by ".*" becomes a keyword rule |
| PayloadRoundTrip.CidrKept | src/lib/generator/config/ruleconvert.cpp:45-77 | a range reads back if and only if it is plain, has a '/' and is of the family its rule says |
| PayloadRoundTrip.EntryBack | src/lib/handler/interfaces.cpp:191-252 | a rule line contributes exactly its pattern, or nothing if it is of another kind |
| PayloadRoundTrip.CommentDropped | src/lib/handler/interfaces.cpp:218-222 | a line ends at "//", without white space in front of it |
| PayloadRoundTrip.ReturnDropped | src/lib/handler/interfaces.cpp:191-207 | a carriage return at the end is no part of the pattern |
| PayloadRoundTrip.ItemForms | src/lib/generator/config/ruleconvert.cpp:36-40 | indented items with either kind of quotes, or none, are their text |
| PayloadRoundTrip.BareBody | src/lib/generator/config/ruleconvert.cpp:36-40 | lines that are no items stay as they are |
| PayloadRoundTrip.ReadBack | src/lib/generator/config/ruleconvert.cpp:36-79 | a printed payload reads as a blank line and the rules of its entries |
| PayloadRoundTrip.RoundTrip | src/lib/handler/interfaces.cpp:191-298 | for any list with a rule of the kind, exactly its rules of that kind, in order and without the fields after the pattern, are read back if and only if each of their patterns is one that reads back |
| PayloadRoundTrip.PlaceholderBack | src/lib/handler/interfaces.cpp:290-298 | a list without such a rule is read back as the rule of the placeholder |

## Left out

- The lock and the cache are transition systems on values, not classes, because they are about interleavings; sequential consistency is assumed although m_write_thread_id is no atomic object, and the writer-preferring mode is the one modelled.
- Files are read and written byte by byte, each write setting the time stamp; the size of a read is taken when the file is opened.
- DownloadCache.ProvenanceAndFreshness: cached response headers and the "data:" branch are not modelled, and the name of a cache file is an injective function of the URL instead of its MD5.
- DownloadCache.FlushEmpties: the removal of a file is taken to succeed.
- curl, sockets, logging, threads, QuickJS, cron, settings and template rendering: transfers are arbitrary (status, completed, body) outcomes.
- Md5.Digester.Process: says nothing of chunks on which the loop never ends; ProcessEnds says which these are.
- Md5.Digester.Finish: the masks and shifts on the length are written as arithmetic, and the length words are numbers below 2^32.
- The sine table of MD5 is given as constants and not derived.
- StringUtil.ReplaceAllDistinct: says nothing of an empty old value, for which the loop does not end.
- Regex.Found: PCRE2's refusal of text that is not UTF-8 and its limits are not modelled.
- ShareLinks.ProxyToSingle: VMess nodes are not modelled, and no proxy fields that no modelled link carries (UDP, TLS13, user ids, versions).
- ShareLinks.ExplodeSS: atoi overflow is not modelled.
- ShareLinks.ExplodeSub: the detection of SSD, Clash and Surge input is not modelled, and the parsers behind the other schemes are function parameters, one each.
- hash_ in switch statements is taken as comparing the strings.
- INIReader: the short forms on the current section, GetFirst, integer arrays, error line numbers, RenameSection, and copying, which keeps the iterator of the other object; reading past the end of a shortened title line; code page conversion.
- IniRoundTrip.RoundTrip: its conditions on values of named items are exact, by ValueKept; those on names and section titles are sufficient only, and documents read with filters or isolated lines are excluded.
- ProxyGroups.GroupGenerate: script rules are excluded, and matching a rule against a node is an abstract predicate. Fields of the other exporters, and the Surge group lines, are not modelled.
- NodeNames: which nodes a format supports is an abstract predicate, and the node list is the one built with the node-list option off.
- NodeRanges.MatchRange: atoi overflow is not modelled.
- RuleProviders.RenderClashScript: script mode and an empty link prefix are excluded; conversion of rulesets and reachability of paths are function parameters; the fixed fields type and path of a provider are not stored.
- Payload.ConvertPayload: the two regular expressions that unwrap a Clash payload work line by line here, so that blank lines before an item stay, and the payload line comes first and ends with a line feed; isIPv4 is a function parameter. The Quantumult X branch, types 1, 2, 5 and 6, and the line loops of rulesetToClashStr and rulesetToSurge are left out.
- trimOf, toLower and similar one-branch helpers appear only inside the functions that use them.
