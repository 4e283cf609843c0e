# Verified models of the curl 7.36.0 protocol code and of the nvram library

This project models eight components of the repository in Dafny and proves what
they are for: the FTP LIST response parser, the multipart form builder and
reader, the hash table with the connection cache on top, the hand-off between
the resolver thread and its parent, the glob matcher, dot-segment removal,
incremental gzip header skipping, and the nvram environment cache with the two
text codecs. `dafny verify dfyconfig.toml` checks everything.

Code that changes memory in place is modelled as classes, arrays and loops
(`ListParser`, `Builder`, `Form`, `CurlHash`, `HashIterator`, `Bundle`,
`ConnCache`, `GzipReader`, `EnvBlock`, and the methods of `GlobMatcher`,
`DotDot`, `Base64`, `Base64Decode` and `PercentEncoding`). Each method is proved
against a function or a map that says what it computes, and the theorems are
lemmas about those functions. The resolver, where two threads share data, is a
state machine over atomic steps; its theorems hold of every interleaving.

## What each file holds

- `CText.dfy`: C strings, character classes, decimal numbers and strtol().
- `FtpListModel.dfy`, `FtpListInvariant.dfy`, `FtpListParser.dfy`: one step per
  received byte, the invariant of every reachable state, and the class that
  refines the fold of that step over chunks of any size.
- `FtpListRoundTrip.dfy`, `FtpListTheorems.dfy`, `FtpListLinks.dfy`,
  `FtpListListing.dfy`, `FtpListExact.dfy`: a printer for listings, the proof that
  the parser inverts it, and what becomes of the listings it does not.
- `FtpListNt.dfy`: the same for Windows NT listings, with what a size text means.
- `FtpListErrors.dfy`: lines of any content, and which of them are errors.
- `FormModel.dfy`, `FormBuilder.dfy`, `FormReader.dfy`, `FormPost.dfy`: the text
  of a multipart body, the builder and the reader against it, a whole post from
  end to end, and the proof that the body splits into its parts again.
- `FormReadBack.dfy`, `FormRoundTrip.dfy`: a receiver of form posts that shares no
  text with the sender, and exactly when it gets back what the caller gave.
- `HashTable.dfy`, `ConnCache.dfy`: the table as a finite map with its iterator,
  and bundles and the cache above it, with allocation failures.
- `Resolver.dfy`: worker and parent as interleaved steps.
- `GlobMatcher.dfy`: `loop` against the language of a pattern.
- `DotDot.dfy`, `DotDotProperties.dfy`: section 5.2.4 of RFC 3986.
- `GzipHeader.dfy`, `GzipLayout.dfy`: section 2.3 of RFC 1952, chunk by chunk and
  byte by byte.
- `NvramFormat.dfy`, `NvramEnv.dfy`: the environment block and the cache.
- `Base64.dfy`, `Base64Decode.dfy`: section 4 of RFC 4648.
- `PercentEncoding.dfy`: sections 2.1 and 2.3 of RFC 3986.

## Where the code does less than it promises

Each of these is stated as an exact condition that a caller can check.

- A symlink line of an FTP listing that ends in CR LF loses the last byte of its
  target (`CrlfLinkLosesAByte`), one whose target has " -> " in it is dropped, and
  one whose name is not `ArrowFree` is taken apart at another place or is an error
  (`ArrowAtTheEndIsTaken`, `SpaceAtTheEndIsAnError`). Every other printed line
  comes back whole, and a listing comes back whole exactly when all its lines do
  (`StarRoundTrip`). A name is `ArrowFree` when the parser's attempts at " -> "
  in it, each of which starts at a space and takes with it the first byte that
  differs, neither succeed nor are under way at its end: "x  -> y" with two spaces
  is, "x -> y" is not.
- An nvram name that contains "=" is not found again after the flash has been
  read back: the entry is split at the first "=" of its text (`ParseOfBlock`),
  so the block reproduces the cache exactly when no name contains one
  (`PersistsExactly`).
- The length check of `nvram_commit` does not protect the block: the loop writes
  past it exactly when the entries do not fit (`InsideExactly`).
- The announced size of a form post equals the length of its body exactly when
  the read callbacks deliver, in all, what they announce (`SizeIsLength`,
  `Builder.GetFormData`).
- A multipart body splits into its parts exactly when the delimiter occurs in
  none of them (`PostParsesBack`, `MixedParsesBack`); the boundary is random and
  the builder does not look.
- File names are escaped and field names are not: a receiver gets a field back
  exactly when its name has no quote, backslash or CR LF, its file name, content
  type and headers have no CR LF and fit the buffer of 4096 bytes, no header is
  empty, and no header comes where a content type would (`SingleReadsBack`,
  `GroupReadsBack`, `PostReadsBack`).
- A relative path of "." and ".." segments only, without a query, leaves the
  output of `Curl_dedotdotify` unwritten, terminator included (`EmptyExactly`,
  `RemoveAll`, `DotIsNotWritten`); every other output is terminated.
- A failed `Curl_hash_add` of a key that is already there has removed the old
  value (`CurlHash.Add`); the connection cache never does this, and its failed
  add changes nothing (`ConnCache.AddConn`).

## Model

| member | source | states |
|---|---|---|
| FtpListModel.FoldAppend | lib/curl-7.36.0/lib/ftplistparser.c:359-388 | parsing a stream is parsing its first part and going on from there with the second |
| FtpListModel.ChunkingInvariance | lib/curl-7.36.0/lib/ftplistparser.c:359-388 | however the stream is cut into calls, the parser ends in the same state with the same records |
| FtpListModel.ErrorIsSticky | lib/curl-7.36.0/lib/ftplistparser.c:369-376 | after an error no byte changes anything |
| FtpListInvariant.StepKeepsInv | lib/curl-7.36.0/lib/ftplistparser.c:389-1050 | every byte in every state keeps the invariant on offsets, lengths, terminators and records |
| FtpListInvariant.EveryRecordIsWellFormed | lib/curl-7.36.0/lib/ftplistparser.c:303-357 | whatever the server sends, the name, time and (Unix) user, group and permission offsets of each listed record denote strings that end inside the record's own buffer, and so does a symlink's target |
| FtpListParser.ListParser.constructor | lib/curl-7.36.0/lib/ftplistparser.c:186-189 | a new parser is in the start state |
| FtpListParser.ListParser.Store | lib/curl-7.36.0/lib/ftplistparser.c:389-423 | the byte goes behind the used ones, the buffer grows first when it must, and one byte stays free |
| FtpListParser.ListParser.PutNulAt | lib/curl-7.36.0/lib/ftplistparser.c:560-566 | an in-place NUL lands inside the used bytes and changes no other |
| FtpListParser.ListParser.InsertEntry | lib/curl-7.36.0/lib/ftplistparser.c:303-357 | the record is appended when the filter wants it and dropped otherwise |
| FtpListParser.ListParser.TotalLineIsGood | lib/curl-7.36.0/lib/ftplistparser.c:442-473 | the "total" line check computes the same as the specification on the buffer |
| FtpListParser.ListParser.SwitchOnState | lib/curl-7.36.0/lib/ftplistparser.c:425-1046 | the nested switch on the buffer in place refines the step function |
| FtpListParser.ListParser.TakeByte | lib/curl-7.36.0/lib/ftplistparser.c:389-1046 | one byte either takes the step or is to be read again in a state whose step is the same |
| FtpListParser.ListParser.ParseList | lib/curl-7.36.0/lib/ftplistparser.c:359-1050 | a call consumes its whole chunk, terminates in spite of the re-read, keeps the buffer invariant, and reaches the fold of the step over the chunk; what that fold gives is said by `RoundTrip`, `EveryListing`, `EveryNtListing` and `FtpListErrors` |
| FtpListRoundTrip.PermTextReadsBack | lib/curl-7.36.0/lib/ftplistparser.c:208-271 | every combination of permission, setuid, setgid and sticky bits printed as letters is read as the same number |
| FtpListRoundTrip.PermissionsExactly | lib/curl-7.36.0/lib/ftplistparser.c:208-271 | nine letters are accepted exactly when some combination of bits prints as them, and with its number |
| FtpListRoundTrip.ReadTime | lib/curl-7.36.0/lib/ftplistparser.c:659-741 | three words with any gaps are read as one time text |
| FtpListTheorems.NumberKnown | lib/curl-7.36.0/lib/ftplistparser.c:553-575 | a printed number is known with its value unless it reaches the largest one |
| FtpListTheorems.ReadHead | lib/curl-7.36.0/lib/ftplistparser.c:475-537 | type letter and permissions of an entry are read |
| FtpListTheorems.ReadName | lib/curl-7.36.0/lib/ftplistparser.c:742-785 | a name up to LF or CR LF closes the entry with exactly that name |
| FtpListLinks.ArrowFoundExactly | lib/curl-7.36.0/lib/ftplistparser.c:788-846 | the arrow printed behind a symlink name is taken for the arrow if and only if no attempt at " -> " inside the name succeeds or is under way at its end |
| FtpListLinks.SpacedNamesAreFree | lib/curl-7.36.0/lib/ftplistparser.c:795-834 | so names with spaces are read whole unless a space ends the name or stands before a dash |
| FtpListListing.ReadLink | lib/curl-7.36.0/lib/ftplistparser.c:786-896 | name, arrow and target of a symlink close the entry with that name and the stored target |
| FtpListListing.ReadLine | lib/curl-7.36.0/lib/ftplistparser.c:475-896 | a printed line becomes one record that shows the entry |
| FtpListListing.ReadTotalLine | lib/curl-7.36.0/lib/ftplistparser.c:428-474 | a leading "total" line is accepted and leaves nothing behind |
| FtpListListing.RoundTrip | lib/curl-7.36.0/lib/ftplistparser.c:359-896 | a printed listing of Unix entries, with or without a "total" line, parses without error into exactly the wanted entries, in order: type, permissions as text and number, links, user, group, size, time, name and target |
| FtpListExact.SeenAsItself | lib/curl-7.36.0/lib/ftplistparser.c:788-846 | a symlink line is taken apart into the printed name and target when the name is free of arrows, and otherwise under another name or not at all |
| FtpListExact.EveryListing | lib/curl-7.36.0/lib/ftplistparser.c:359-896 | any printed listing, whatever its symlink names, is free of errors if and only if each symlink line has an arrow with a target behind it, and then it parses into exactly the entries its lines read like |
| FtpListExact.WholeExactly | lib/curl-7.36.0/lib/ftplistparser.c:786-893 | lines that all read like entries show all printed entries if and only if no symlink name has an arrow, no symlink line ends in CR LF and no symlink target has " -> " in it |
| FtpListExact.StarRoundTrip | lib/curl-7.36.0/lib/ftplistparser.c:303-357 | with pattern "*" and the built-in matcher, a printed listing parses without error into exactly its entries, in order and with every field, if and only if that condition holds of every entry |
| FtpListExact.CrlfLinkLosesAByte | lib/curl-7.36.0/lib/ftplistparser.c:877-893 | the line of a link "a" to "bc" that ends in CR LF is listed with the target "b" |
| FtpListExact.ArrowAtTheEndIsTaken | lib/curl-7.36.0/lib/ftplistparser.c:795-846 | the line of a link "a ->" to "t" is listed as a link "a" to "-> t" |
| FtpListExact.SpaceAtTheEndIsAnError | lib/curl-7.36.0/lib/ftplistparser.c:795-834 | the line of a link "a " to "t" is an error |
| FtpListNt.SizeIsMeaning | lib/curl-7.36.0/lib/ftplistparser.c:957-990 | a size text is read as a directory for "<DIR>", as a file of the size it denotes when it is white space, a sign or none and digits of a number the type holds, and as an error otherwise |
| FtpListNt.ReadLine | lib/curl-7.36.0/lib/ftplistparser.c:897-1042 | a printed line with LF or CR LF is an error when its size means nothing, and else one entry: type and size as the size text says, date and time as printed, and the name |
| FtpListNt.EveryNtListing | lib/curl-7.36.0/lib/ftplistparser.c:897-1042 | any printed Windows NT listing parses without error if and only if each size text means something, and then into exactly the wanted entries, in order |
| FtpListErrors.FieldExactly | lib/curl-7.36.0/lib/ftplistparser.c:538-741 | links and size may hold digits only, user and group anything, the words of the time letters, digits and periods behind a letter or digit, and colons in the third; anything else is an error |
| FtpListErrors.HeadExactly | lib/curl-7.36.0/lib/ftplistparser.c:475-741 | a line up to its name, whatever its fields contain, is an error exactly if the type letter, a permission letter, the space behind them or a character of a field does not belong there |
| FtpListErrors.TextExactly | lib/curl-7.36.0/lib/ftplistparser.c:751-893 | a name of either dialect or a target, up to its line feed, is an error exactly if it has a carriage return that is not in front of the line feed |
| FtpListErrors.LinkExactly | lib/curl-7.36.0/lib/ftplistparser.c:795-893 | the rest of a link's line is an error exactly if the search for the four bytes of an arrow, started over by each byte that differs, meets a line end first, or the target is empty or has a carriage return where none may be |
| FtpListErrors.LinesExactly | lib/curl-7.36.0/lib/ftplistparser.c:475-893 | lines of any content leave the parser between two lines if and only if each has the form of the format, and in an error otherwise |
| FtpListErrors.EveryUnixText | lib/curl-7.36.0/lib/ftplistparser.c:359-893 | the same from the first byte of a listing on |
| FtpListErrors.TotalExactly | lib/curl-7.36.0/lib/ftplistparser.c:428-474 | a first line that starts with "t" is an error exactly if its C string is not "total ", white space and digits, of which none need be there |
| FtpListErrors.NtLineExactly | lib/curl-7.36.0/lib/ftplistparser.c:897-1042 | a Windows NT line is an error exactly if a byte of the date, a byte of the time behind its first one, the size, or a carriage return in the name does not belong there |
| FormModel.SizeIsLength | lib/curl-7.36.0/lib/formdata.c:887-903 | the announced size of a chunk list is the length it delivers plus what its callbacks announce beyond what they deliver |
| FormModel.FeedAppend | lib/curl-7.36.0/lib/formdata.c:880-885 | the shape the reader relies on can be judged piece by piece as the list grows |
| FormModel.Boundary | lib/curl-7.36.0/lib/formdata.c:1562-1568 | a boundary has 40 characters, dashes and alphanumerics only, hence no CR |
| FormBuilder.Builder.AddFormData | lib/curl-7.36.0/lib/formdata.c:848-905 | one chunk is appended; length zero means a C string; a file that cannot be sized is an error |
| FormBuilder.Builder.AddFormDataf | lib/curl-7.36.0/lib/formdata.c:911-922 | the formatted text, cut to 4095 bytes, is appended |
| FormBuilder.Builder.AddFileName | lib/curl-7.36.0/lib/formdata.c:1092-1133 | the shown or base name, with backslashes and quotes escaped |
| FormBuilder.StripPath | lib/curl-7.36.0/lib/formdata.c:1055-1090 | what follows the last slash or backslash, whichever comes later |
| FormBuilder.Escape | lib/curl-7.36.0/lib/formdata.c:1117-1125 | the escaping loop computes the escaped name |
| FormBuilder.Builder.AddContents | lib/curl-7.36.0/lib/formdata.c:1296-1351 | the contents of one item by its flags: named file, standard input read here, buffer, callback or text, or the error |
| FormBuilder.Builder.AddStdin | lib/curl-7.36.0/lib/formdata.c:1317-1330 | the blocks of 512 add up to all of the standard input |
| FormBuilder.Builder.AddItem | lib/curl-7.36.0/lib/formdata.c:1241-1353 | one round of the file loop adds exactly the text of the item |
| FormBuilder.Builder.AddItems | lib/curl-7.36.0/lib/formdata.c:1241-1354 | the file loop adds the texts of all files behind their delimiters, or stops at the first error |
| FormBuilder.Builder.AddPost | lib/curl-7.36.0/lib/formdata.c:1197-1367 | one field adds its delimiter line and its part |
| FormBuilder.Builder.AddPosts | lib/curl-7.36.0/lib/formdata.c:1189-1369 | the field loop adds all parts in field order, or stops at the first error |
| FormBuilder.Builder.GetFormData | lib/curl-7.36.0/lib/formdata.c:1148-1392 | the list is the header line and then chunks that deliver exactly the multipart body, can all be read and never put streams side by side or last; the size is the body's length up to what callbacks promise; on an error there is no list |
| FormReader.Form.PostHeader | lib/curl-7.36.0/lib/formdata.c:1542-1556 | the header line is returned and not part of what remains; an empty form has none |
| FormReader.Form.ReadFromFile | lib/curl-7.36.0/lib/formdata.c:1448-1479 | some of the stream's bytes, or -1 when it cannot be opened, or 0 and the next chunk at its end, or the count above the buffer size by which a callback signals |
| FormReader.Form.ReadLines | lib/curl-7.36.0/lib/formdata.c:1509-1534 | the loop over texts returns at least one byte and stops before a stream |
| FormReader.Form.Read | lib/curl-7.36.0/lib/formdata.c:1485-1535 | what is returned and what remains make up what remained before, and 0 is returned exactly when nothing remained; a callback's signal is passed on and changes nothing |
| FormReader.Form.SomethingRemains | lib/curl-7.36.0/lib/formdata.c:1530-1534 | a list that is not used up still has a byte to deliver, so 0 is never returned early |
| FormPost.Deliver | lib/curl-7.36.0/lib/http.c:2299-2344 | a post built, its header taken off and the rest read in pieces of any size sends exactly the header line and the multipart body, whose fields read back (`FormRoundTrip.PostReadsBack`, `HeaderReadsBack`), or fails with the error of the first file that cannot be read (`ErrorsExactly`) |
| FormPost.SplitUndoesJoin | lib/curl-7.36.0/lib/formdata.c:1189-1375 | splitting at a delimiter that has its first character only once undoes joining, if and only if no piece contains it |
| FormPost.PostParsesBack | lib/curl-7.36.0/lib/formdata.c:1173-1375 | splitting the body at its delimiters gives exactly the parts in field order if and only if the delimiter occurs in none of them |
| FormPost.MixedParsesBack | lib/curl-7.36.0/lib/formdata.c:1220-1367 | the same for the files inside a part of several |
| FormReadBack.LinesBack | lib/curl-7.36.0/lib/formdata.c:1269-1294 | a receiver that takes header lines up to the first empty one gets lines that may have been cut if and only if they are whole, not empty and free of CR LF |
| FormReadBack.EscapedIsRead | lib/curl-7.36.0/lib/formdata.c:1092-1133 | an escaped file name is read back from its quotes, whatever it contains |
| FormReadBack.PlainExactly | lib/curl-7.36.0/lib/formdata.c:1205-1218 | a field name, which is not escaped, is read back if and only if it has no quote and no backslash |
| FormReadBack.DispositionExactly | lib/curl-7.36.0/lib/formdata.c:1205-1267 | field name and file name are read back from the whole disposition line and from no less of it |
| FormRoundTrip.FileReadsBack | lib/curl-7.36.0/lib/formdata.c:1247-1351 | one file of several is read back with its name, its content type if it has one, its extra headers in order and its content, if and only if no CR LF, no text too long, no empty header and no header in place of the type is among them |
| FormRoundTrip.SingleReadsBack | lib/curl-7.36.0/lib/formdata.c:1205-1351 | the same for a field with one content, with the field name and the file name if it is sent with one; its type must not be the one that announces several files |
| FormRoundTrip.GroupReadsBack | lib/curl-7.36.0/lib/formdata.c:1220-1367 | a field with several files is read back, all files in order, if and only if its name and each file can be told apart and no file contains its delimiter |
| FormRoundTrip.PostReadsBack | lib/curl-7.36.0/lib/formdata.c:1173-1375 | a receiver that knows the boundary reads from the body exactly the fields the caller gave, in order, if and only if no part contains the delimiter and each field can be told apart |
| FormRoundTrip.ManyPieces | lib/curl-7.36.0/lib/formdata.c:1189-1375 | a part that contains the delimiter makes a receiver see more parts |
| FormRoundTrip.HeaderReadsBack | lib/curl-7.36.0/lib/formdata.c:1173-1178 | the header line is the content type, "; boundary=", the boundary and CR LF, and tells the boundary if and only if a content type of the caller does not tell one itself |
| FormRoundTrip.BoundaryTells | lib/curl-7.36.0/lib/formdata.c:1562-1568 | a boundary is 24 dashes and the hexadecimal digits of two 32-bit random numbers |
| FormRoundTrip.ErrorsExactly | lib/curl-7.36.0/lib/formdata.c:1296-1343 | a post fails exactly if one of its files cannot be read, with the read error for a missing file and the bad argument error for a directory, whichever comes first |
| FormRoundTrip.StdinTaken | lib/curl-7.36.0/lib/formdata.c:1302-1330 | the first item named "-" gets the whole standard input and later ones nothing |
| HashTable.CurlHash.constructor | lib/curl-7.36.0/lib/hash.c:54-94 | a new table stands for the empty map |
| HashTable.CurlHash.Add | lib/curl-7.36.0/lib/hash.c:153-186 | the key maps to the new value and a replaced value is destroyed; without memory the key is gone |
| HashTable.CurlHash.Delete | lib/curl-7.36.0/lib/hash.c:189-204 | the key and only the key goes, its value is destroyed, and the result says whether there was one |
| HashTable.CurlHash.Pick | lib/curl-7.36.0/lib/hash.c:206-224 | what the map says of the key |
| HashTable.CurlHash.CleanWithCriterium | lib/curl-7.36.0/lib/hash.c:260-286 | exactly the mappings the callback chooses go, one destroyed value each |
| HashTable.CurlHash.FlatIsContents | lib/curl-7.36.0/lib/hash.c:153-286 | the lists of all slots hold every mapping exactly once, with distinct keys, and their number is the size |
| HashTable.HashIterator.constructor | lib/curl-7.36.0/lib/hash.c:327-333 | all elements of the table are still to come, in slot order |
| HashTable.HashIterator.Next | lib/curl-7.36.0/lib/hash.c:335-364 | the first element still to come, and then the rest; nothing once and for all at the end |
| HashTable.PrunedAppended | lib/curl-7.36.0/lib/hash.c:169-198 | adding a new key at the end of its list and taking it out again restores the list |
| ConnCache.Bundle.AddConn | lib/curl-7.36.0/lib/bundles.c:81-91 | the connection is appended, counted and points to the bundle, or nothing changes |
| ConnCache.Bundle.RemoveConn | lib/curl-7.36.0/lib/bundles.c:94-110 | the connection leaves the list, the count and the bundle pointer follow; 0 when it was not there |
| ConnCache.ConnCache.constructor | lib/curl-7.36.0/lib/conncache.c:48-65 | a new cache is empty and valid |
| ConnCache.ConnCache.FindBundle | lib/curl-7.36.0/lib/conncache.c:76-85 | the bundle of the host, or none |
| ConnCache.ConnCache.RemoveBundle | lib/curl-7.36.0/lib/conncache.c:98-120 | one mapping to this bundle goes and no other does; a bundle that is not in the table changes nothing |
| ConnCache.ConnCache.AddConn | lib/curl-7.36.0/lib/conncache.c:122-155 | with memory at each step the connection joins the one bundle of its host and is counted; otherwise table, bundles, counters and the connection are as before |
| ConnCache.ConnCache.RemoveConn | lib/curl-7.36.0/lib/conncache.c:157-177 | the connection leaves cache and count, an emptied bundle goes with it, and a connection without a bundle is ignored |
| ConnCache.ConnCache.FindFirstConnection | lib/curl-7.36.0/lib/conncache.c:220-245 | a connection of the cache, or none exactly when the cache is empty |
| ConnCache.ConnCache.CountsAddUp | lib/curl-7.36.0/lib/conncache.c:152-175 | num_connections is the sum of the counts of the bundles in the table |
| ConnCache.BundleHasOneHost | lib/curl-7.36.0/lib/conncache.c:130-155 | a bundle of a valid cache belongs to exactly one host |
| Resolver.StepKeepsInv | lib/curl-7.36.0/lib/asyn-thread.c:186-388 | no step of worker or parent leaves the invariant on ownership, progress, results and lists |
| Resolver.EveryRunIsSafe | lib/curl-7.36.0/lib/asyn-thread.c:186-509 | in every interleaving no thread touches freed data or a missing, destroyed or held mutex it may not, and the parent never reads a result that may still be written |
| Resolver.EveryReportIsTrue | lib/curl-7.36.0/lib/asyn-thread.c:242-286 | the parent reads status and list only after it saw `done` or joined the thread, and is told exactly what the thread found |
| Resolver.EveryListGoesOnce | lib/curl-7.36.0/lib/hostasyn.c:73-116 | each address list made is handed to the cache or freed at most once at any time, and exactly once when the parent is through |
| Resolver.EveryListGoesWhereItShould | lib/curl-7.36.0/lib/hostasyn.c:89-116 | when the parent is through, a list is in the cache if and only if the parent was told of it with status 0 and its store succeeded, and was freed if and only if the store failed or the parent was never told of it |
| Resolver.SockError | lib/curl-7.36.0/lib/asyn-thread.c:275-279 | a failed lookup never reports success |
| Resolver.ThreadResolves | lib/curl-7.36.0/lib/asyn-thread.c:265-291 | a thread left alone exits with the next list and no error, or with no list and errno, or else the return code, or else the out of memory code |
| Resolver.BeginStarts | lib/curl-7.36.0/lib/asyn-thread.c:342-379 | when nothing fails the parent gets the thread going, with a mutex, a host name and an empty result |
| Resolver.FailedBeginEnds | lib/curl-7.36.0/lib/asyn-thread.c:342-393 | whichever allocation of a start fails, or the start of the thread itself, the call ends six steps later with no thread left and nothing told |
| Resolver.PollOfUndone | lib/curl-7.36.0/lib/asyn-thread.c:459-509 | a poll before the thread is done tells nothing and changes nothing |
| Resolver.PollDelivers | lib/curl-7.36.0/lib/asyn-thread.c:459-487 | a poll after the thread has exited tells the parent the outcome once, and the parent is through |
| Resolver.WaitDelivers | lib/curl-7.36.0/lib/asyn-thread.c:423-456 | so does a wait |
| Resolver.CancelDelivers | lib/curl-7.36.0/lib/asyn-thread.c:144-147 | a cancellation tells nothing, and the parent is through |
| Resolver.NeverStuck | lib/curl-7.36.0/lib/asyn-thread.c:317-334 | as long as the parent has something to do, one of the threads can take a step |
| Resolver.CallsReturn | lib/curl-7.36.0/lib/asyn-thread.c:423-487 | once the parent waits, completes or cancels, each step that does anything brings it nearer to the end |
| GlobMatcher.Loop | lib/curl-7.36.0/lib/curl_fnmatch.c:312-413 | terminates, returns MATCH exactly when the text is in the pattern's language, and FAIL exactly when a byte or an escape cannot be dealt with before any star |
| GlobMatcher.Turn | lib/curl-7.36.0/lib/curl_fnmatch.c:320-412 | one turn of the loop gives the verdict, or leaves a pattern and a text with the same verdict |
| GlobMatcher.AtStar | lib/curl-7.36.0/lib/curl_fnmatch.c:323-335 | collapsing stars and swallowing the FAIL of an inner attempt never change the verdict |
| GlobMatcher.CollapseStars | lib/curl-7.36.0/lib/curl_fnmatch.c:324-325 | skipping to the last of a run of stars keeps language and verdict |
| GlobMatcher.StarUnrolls | lib/curl-7.36.0/lib/curl_fnmatch.c:323-335 | a star matches nothing, or one byte and goes on |
| GlobMatcher.StarsCollapse | lib/curl-7.36.0/lib/curl_fnmatch.c:324-325 | two stars in a row mean the same as one |
| GlobMatcher.StarMatchesAll | lib/curl-7.36.0/lib/curl_fnmatch.c:323-335 | the pattern "*" matches every text |
| GlobMatcher.Fnmatch | lib/curl-7.36.0/lib/curl_fnmatch.c:419-427 | a missing pattern or string fails, anything else is decided by the language |
| GlobMatcher.FnmatchStrings | lib/curl-7.36.0/lib/curl_fnmatch.c:312-427 | the three verdicts on two strings, character by character |
| GlobMatcher.LanguageIsMatches | lib/curl-7.36.0/lib/curl_fnmatch.c:312-413 | splitting the text over the tokens of the pattern and matching it character by character say the same; "?" and an escape take the bytes from space to tilde |
| GlobMatcher.CannotDealIsHopeless | lib/curl-7.36.0/lib/curl_fnmatch.c:340-365 | so do the two descriptions of what cannot be dealt with |
| DotDot.Classify | lib/curl-7.36.0/lib/dotdot.c:82-143 | the chain of comparisons picks the rule that applies |
| DotDot.Round | lib/curl-7.36.0/lib/dotdot.c:80-156 | one round on the two buffers in place is one step of the recursion, and the input gets shorter |
| DotDot.RemoveLast | lib/curl-7.36.0/lib/dotdot.c:115-121 | the output pointer walks back over the last segment and never before the start |
| DotDot.RemoveAll | lib/curl-7.36.0/lib/dotdot.c:80-156 | the loop terminates and computes the recursion, never writing past the path's length; it terminates what it writes, and writes nothing at all when the result is empty |
| DotDot.Dedotdotify | lib/curl-7.36.0/lib/dotdot.c:50-171 | for a nonempty path the result is the cleaned path and, from the first "?" on, the input verbatim, in a buffer of one byte more than the input, terminated unless it is empty |
| DotDot.DotIsNotWritten | lib/curl-7.36.0/lib/dotdot.c:139-156 | for the path "." nothing is written to the output |
| DotDot.PathAndQuery | lib/curl-7.36.0/lib/dotdot.c:64-78 | path and query are the input again, and a query starts with "?" |
| DotDot.PathIsFound | lib/curl-7.36.0/lib/dotdot.c:64-78 | a path without "?" and what follows it are told apart |
| DotDotProperties.ResultIsNormal | lib/curl-7.36.0/lib/dotdot.c:80-156 | no output path has a complete "." or ".." segment |
| DotDotProperties.ResultParts | lib/curl-7.36.0/lib/dotdot.c:64-78 | the path of a result is the cleaned path and its query the query of the input (`QueryIsKept` says it for a path and a query put together) |
| DotDotProperties.QueryIsKept | lib/curl-7.36.0/lib/dotdot.c:64-78 | a path without "?" is cleaned, and a query behind it kept verbatim |
| DotDotProperties.Idempotent | lib/curl-7.36.0/lib/dotdot.c:50-171 | applying the function twice equals applying it once, query included |
| DotDotProperties.EmptyExactly | lib/curl-7.36.0/lib/dotdot.c:80-156 | the result for a path is empty if and only if the path consists of "." and ".." segments only |
| DotDotProperties.AbsolutePaths | lib/curl-7.36.0/lib/dotdot.c:80-156 | an absolute path is evaluated on a stack of its segments and stays absolute |
| DotDotProperties.EveryPath | lib/curl-7.36.0/lib/dotdot.c:80-156 | every path, absolute or not, becomes what its segments denote: leading dot segments go, the first other segment stays unless some ".." behind it meets an empty stack, and the rest is evaluated on a stack |
| GzipHeader.CheckGzipHeader | lib/curl-7.36.0/lib/content_encoding.c:195-274 | the pointer loop computes the verdict of the specification; `GzipLayout` says what that is byte by byte |
| GzipHeader.CheckIsExact | lib/curl-7.36.0/lib/content_encoding.c:195-274 | OK with length n exactly when the first n bytes are a header in the sense of section 2.3 of RFC 1952 |
| GzipHeader.VerdictIsStable | lib/curl-7.36.0/lib/content_encoding.c:195-274 | a verdict does not change as data is added, and any prefix as long as the header gives the same one |
| GzipHeader.GzipReader.LaterChunk | lib/curl-7.36.0/lib/content_encoding.c:377-418 | when the header completes, the offset into the current chunk lies inside it and points at the first compressed byte |
| GzipHeader.GzipReader.Write | lib/curl-7.36.0/lib/content_encoding.c:330-418 | what has been handed to inflate is always the received stream behind its header; a bad header fails the call |
| GzipHeader.CompressedGrows | lib/curl-7.36.0/lib/content_encoding.c:330-418 | what is handed over is continued by later bytes, never revised |
| GzipHeader.Feed | lib/curl-7.36.0/lib/content_encoding.c:277-418 | for any chunking of a stream the calls succeed exactly when its header is not bad, and the bytes handed over concatenate to the stream after its one-shot header |
| GzipLayout.WrittenIsAccepted | lib/curl-7.36.0/lib/content_encoding.c:195-274 | 31, 139, 8, a fourth byte that adds 2, 4, 8 and 16 for crc, extra field, name and comment, six more bytes and these fields as they are announced are accepted with exactly their length, whatever follows |
| GzipLayout.PrefixUnderflows | lib/curl-7.36.0/lib/content_encoding.c:195-274 | less than such a header is an underflow |
| GzipLayout.AcceptsWritten | lib/curl-7.36.0/lib/content_encoding.c:195-274 | the check accepts with length n if and only if the first n bytes are such a header |
| GzipLayout.RejectsExactly | lib/curl-7.36.0/lib/content_encoding.c:205-222 | the check rejects exactly ten bytes or more that do not start with 31, 139, 8 and a fourth byte below 32 |
| GzipLayout.FeedWritten | lib/curl-7.36.0/lib/content_encoding.c:277-418 | however a stream is cut into chunks, exactly what follows the written header is handed over |
| NvramFormat.ParseOfBlock | lib/libnvram/nvram_env.c:138-162 | parsing a written block gives every entry back in order, split at the first "=" of its text |
| NvramFormat.PersistsExactly | lib/libnvram/nvram_env.c:138-162 | the block reproduces the entries if and only if no name contains "=" |
| NvramFormat.CutsAreStable | lib/libnvram/nvram_env.c:138-162 | what was read back once is written and read back unchanged ever after |
| NvramFormat.BlockHolds | lib/libnvram/nvram_env.c:500-518 | each entry lies in the block as name, "=", value and NUL, right behind the entries before it |
| NvramFormat.ZerosBehind | lib/libnvram/nvram_env.c:497-518 | everything behind the entries is zero |
| NvramEnv.EnvBlock.constructor | lib/libnvram/nvram_env.c:18-52 | a block starts invalid, with an empty cache |
| NvramEnv.EnvBlock.Init | lib/libnvram/nvram_env.c:77-171 | loading changes what is cached, not what a reader sees; a bad crc reads as an empty block |
| NvramEnv.EnvBlock.Fill | lib/libnvram/nvram_env.c:138-164 | the parsing loop fills the slots from the front with the entries of the block |
| NvramEnv.TakeEntry | lib/libnvram/nvram_env.c:141-161 | one turn of that loop, with the NUL put over the "=" in place |
| NvramEnv.EnvBlock.Close | lib/libnvram/nvram_env.c:173-195 | a dirty cache is written first, so nothing but the split at "=" is lost |
| NvramEnv.EnvBlock.CacheIdx | lib/libnvram/nvram_env.c:201-212 | the first entry with the name, or -1 |
| NvramEnv.EnvBlock.BufGet | lib/libnvram/nvram_env.c:313-371 | the value of the first entry with this name, or the empty string |
| NvramEnv.EnvBlock.BufSet | lib/libnvram/nvram_env.c:391-446 | the value is stored and the cache dirty, or nothing changes and -1 is returned when the name is new and the cache full |
| NvramEnv.EnvBlock.Commit | lib/libnvram/nvram_env.c:466-539 | a dirty cache is serialised to the flash with its crc, and the flash then loads as the cache with names split at "=" |
| NvramEnv.EnvBlock.Serialize | lib/libnvram/nvram_env.c:500-518 | the buffer holds every entry with its NUL, a final NUL and zeros |
| NvramEnv.InsideExactly | lib/libnvram/nvram_env.c:504-518 | the writes of the commit loop stay inside the block if and only if the entries and a final NUL fit it, since its check never fails before something was written past the end |
| NvramEnv.EnvBlock.Get | lib/libnvram/nvram_env.c:285-301 | what the entry shows after writing back and loading again; the entries are those before, split at "=" |
| NvramEnv.EnvBlock.BufGetShown | lib/libnvram/nvram_env.c:373-389 | the value of the entry, and for HE_ROUTE_VER the version with characters of the serial number in it |
| NvramEnv.HertVersion | lib/libnvram/nvram_env.c:230-282 | the four characters put over the version in its static buffer, or nothing when the serial number is too short |
| NvramEnv.RouteVersionOf | lib/libnvram/nvram_env.c:230-282 | a full version keeps its length and everything but its sixth and its eighth to tenth character, which are the third to sixth of the serial number |
| NvramEnv.RouteVersionOfShort | lib/libnvram/nvram_env.c:230-282 | a serial number of at most 19 characters shows no version |
| NvramEnv.EnvBlock.Set | lib/libnvram/nvram_env.c:303-311 | stored in the cache and in the flash, or -1 with cache, dirty flag and flash as before |
| NvramEnv.RunCalls | lib/libnvram/nvram_env.c:285-446 | any run of calls that fit the block leaves the block showing what the specification of the run gives, and each call returns what the specification says |
| NvramEnv.RunRefines | lib/libnvram/nvram_env.c:285-446 | every run of sets and gets on plain names leaves the entries of, and is answered by, a map with a fixed number of places, first occurrences counting |
| NvramEnv.LastSetWins | lib/libnvram/nvram_env.c:285-311 | the value last set is found at the end of any run that does not set the name again |
| NvramEnv.SetThenGet | lib/libnvram/nvram_env.c:285-311 | on the block itself: a set that finds room, any run of calls that does not set the name again, and a get returns the value set |
| NvramEnv.EqualsIsLost | lib/libnvram/nvram_env.c:141-146 | a name with "=" is not found again once the flash has been reloaded |
| Base64.Base64Encode | lib/curl-7.36.0/lib/base64.c:187-276 | the encoding, terminated, in a buffer of insize*4/3+4 |
| Base64.EncodedLength | lib/curl-7.36.0/lib/base64.c:226-262 | four characters for every three bytes or part of three |
| Base64.AllocationIsTight | lib/curl-7.36.0/lib/base64.c:208-210 | the allocation always suffices, and is used to the last byte exactly when the length modulo 3 is 1 |
| Base64.TableIsAlphabet | lib/curl-7.36.0/lib/base64.c:37-38 | the table is the alphabet of section 4 of RFC 4648, row by row |
| Base64.RfcVectors | lib/curl-7.36.0/lib/base64.c:187-276 | the seven encodings of section 10 of RFC 4648 |
| Base64.EncodeThree | lib/curl-7.36.0/lib/base64.c:226-262 | three bytes are encoded as the alphabet characters of their four sextets, in front of the encoding of what follows |
| Base64Decode.DecodeQuantum | lib/curl-7.36.0/lib/base64.c:43-86 | one quantum is decoded in place, or 0 is returned exactly when it holds a character outside the alphabet |
| Base64Decode.Base64Decode | lib/curl-7.36.0/lib/base64.c:98-168 | exactly the decodable strings are decoded, into a buffer of their size and a NUL |
| Base64Decode.AcceptsExactly | lib/curl-7.36.0/lib/base64.c:98-168 | the decodable strings are the nonempty ones of length divisible by 4 over the alphabet with at most two trailing "=" |
| Base64Decode.QuadHolds | lib/curl-7.36.0/lib/base64.c:43-86 | four characters of the alphabet, of which two at most are padding, are decoded to the bytes of their sextets |
| Base64Decode.RoundTrip | lib/curl-7.36.0/lib/base64.c:98-276 | a byte string comes back from its encoding if and only if it is not empty |
| PercentEncoding.EasyEscape | lib/curl-7.36.0/lib/escape.c:80-133 | the escaped text, terminated; doubling once per overflow always makes room |
| PercentEncoding.UrlDecode | lib/curl-7.36.0/lib/escape.c:145-203 | the unescaped text in a buffer of one byte more, or the error exactly when control bytes are refused and decoded |
| PercentEncoding.RoundTrip | lib/curl-7.36.0/lib/escape.c:80-203 | unescaping inverts escaping for every byte string, NUL bytes included |
| PercentEncoding.EscapeIsCanonical | lib/curl-7.36.0/lib/escape.c:80-133 | escape output holds only unreserved bytes and upper-case triples of other bytes |
| PercentEncoding.CanonicalExactly | lib/curl-7.36.0/lib/escape.c:80-203 | escaping inverts unescaping exactly on the canonical texts, which are exactly the possible outputs |
| PercentEncoding.UnreservedExactly | lib/curl-7.36.0/lib/escape.c:39-63 | exactly letters, digits and "-._~" are written as themselves |
| PercentEncoding.TripleIsValue | lib/curl-7.36.0/lib/escape.c:163-180 | "%" and two hexadecimal digits of either case are decoded to their value |
| PercentEncoding.OtherIsItself | lib/curl-7.36.0/lib/escape.c:163-180 | a byte that starts no such triple is decoded to itself |
| CText.InputIs | lib/curl-7.36.0/lib/escape.c:83-84 | with length zero the bytes in front of the first zero count, else as many as the length says |

## Left out

- FtpListParser.ListParser.ParseList: the filter, strtol() and strstr() are parameters; `StandardConfig` gives their C meaning, and errno is one input of it.
- FtpListExact.EveryListing: the target offset that a later record inherits from an earlier symlink is not shown, since the offsets are not reset between entries.
- FormReader.Form.Read: files keep their contents between the building and the reading of a post, and a read callback is set.
- FormPost.Deliver: callbacks deliver without giving a signal.
- FormBuilder.Builder.AddFileName: the build that has its own basename(); a system basename() also strips trailing slashes.
- HashTable.CurlHash.Add: memory runs out only where the connection cache depends on it; elsewhere allocation succeeds.
- ConnCache.ConnCache.RemoveBundle: the bundle has no connections, as at both its calls.
- ConnCache.ConnCache.RemoveConn: a connection's bundle, if it has one, is a bundle of this cache.
- ConnCache.ConnCache.AddConn: the cache is the one of the connection's handle, and a connection to be added has no bundle yet.
- Resolver.EveryRunIsSafe: joining a thread that was started succeeds, and the timing of polls is left out.
- GlobMatcher.Loop: patterns without "[": a descending range makes `setcharset` spin, and some sets read past the terminator, so bracket patterns have no clean set semantics.
- DotDot.Dedotdotify: an empty path in front of "?" is not modelled.
- GzipHeader.GzipReader.Write: inflate() itself, its errors and the end of the stream are left out; lengths are unbounded.
- NvramEnv.EnvBlock.Commit: the entries fit the block (also for Close, Serialize, Set and the runs); `InsideExactly` says that the code needs it.
- NvramEnv.EnvBlock.BufGetShown: version and serial number fit the fixed buffers they are printed into, and the serial number comes from the block itself, as without CONFIG_DUAL_IMAGE.
- NvramEnv.EnvBlock.Init: a block with a matching crc ends in a NUL, which every committed block does; nvram_clear() and the CONFIG_KERNEL_NVRAM build are left out. MAX_CACHE_ENTRY and block sizes are parameters: nvram.h is not part of this model.
- llist.c is a sequence, Curl_convert_* are the identity, and crc32(), getaddrinfo(), files, random numbers and the flash device are abstract inputs.
- Integer widths: sizes and counters are unbounded, except where a codec or a header combines bytes.
- Curl_conncache_foreach with a callback that deletes entries, Curl_hash_clean and the destructors of whole tables.
- Socket and TLS code, authentication, the other protocols and the command line tool: system calls or straight-line formatting.
