# Verification of the library core

This project models the stateful core of the library in Dafny and proves what its
documentation and tests promise: the chained hash table, the two HTTP state machines, the
linked allocator, the Ecriture and YAML parsers with their builders, the string scanners, the
buffered output stream and the unsigned integer conversions. Code that works in place is
modelled by classes and loops with the same steps, each proved against a specification
function; what is promised is then proved about those functions for all inputs or about all
reachable states.

`dafny verify dfyconfig.toml` checks everything. One module stands for one source file; the
exceptions are listed here.

- `Bits`, `Chains`, `HashTable`: src/HashTable.c. `Chains` holds the chain invariant and the
  three insertion cases on values.
- `Connection`, `HttpHeader`, `HttpServer`, `HttpClient`: src/HTTP. `Connection` models `recv`
  as an arbitrary script of non-empty segments, EAGAIN and the end of the stream; what a header
  says about its body is an arbitrary function.
- `Forests`, `LinkedMemory`, `LinkGuard`: src/LinkedMemory.c. `Forests` is the theory of ordered
  forests, `LinkGuard` says what linking asks of its callers.
- `Slices`, `StringReader`, `Chars`: the cursor, slices and character classes that both parsers
  use.
- `Ecriture`, `EcritureText`, `EcritureReading`, `EcritureSpaces`, `EcritureRoundTrip`:
  src/Ecriture/Parser.c and Builder.c. `EcritureText` says what texts are made of and what they
  are to be read as, `EcritureReading` that they are, `EcritureSpaces` is about white space
  between options, `EcritureRoundTrip` about printing and parsing.
- `Yaml`, `YamlTree`, `YamlDocument`, `YamlOutline`, `YamlLines`, `YamlListing`:
  src/YAML/Parser.c and Tree.c. `YamlOutline` is about plain outlines, `YamlLines` about blank
  lines and comments, `YamlListing` about documents with comments and faulty lines.
- `Search`, `Split`, `Replace`, `Format`: src/String.c.
- `BufferedStream`, `Hex`, `Integer`: the files of the same name.
- `Wrappers`, `Sequences`, `Sets`, `Positions`, `Arithmetic`: optional values, and facts about
  sequences, sets, what a text reads from a position on, and remainders.

Conventions. The hash is an arbitrary function from keys to numbers. A bitmap word is the
sequence of its 32 bits, most significant first. Exceptions are failure results. Events that
the source hands to a callback are appended to a log in order. A memory block of the allocator
is its header; its size is a constant of the block. Where links between nodes matter, they are
written down as a map from nodes to their fields, and the ghost forest is what they spell out.

Results that say something against the expectation, with exact conditions and inputs:

- `String_Find`, `SplitString` and `ReplaceAll` never go back to the start of a partial match.
  They miss nothing exactly for the needles that repeat themselves from the first recurrence of
  their first character on (`Search.SearchableIsExact`, `Replace.FreePiecesAreExact`); "aab" in
  "aaab" is missed (`Search.MissedExample`). With an empty needle, the split iterator never ends
  (`Replace.EmptyNeedleStays`).
- Parsing a pattern gives exactly those captures that its literals separate, if the search does
  not miss these literals (`Format.ParseIsExact`); formatted arguments are read back if they are
  separated (`Format.FormatThenParse`).
- The 8- and 16-bit parsers accept some numbers that do not fit, with a wrong value. They are
  right iff the value fits or the sum of the place values, each cut to the type, does not
  (`Integer.NarrowIsExact`); two digits for 8 bits and four for 16 bits are always safe
  (`Integer.FewDigitsFit`); "300" gives 44 and "70000" gives 4464
  (`Integer.NarrowOverflowMissed`).
- A chunk size is read as a signed 64-bit number with wrap-around. It is right iff it is below
  2^63, which fifteen digits never exceed (`Hex.HexIsExact`); a chunk of 2^64 bytes is
  taken for the last one (`Hex.HexWraps`). `Hex_ToString` writes the last six digits only, so that
  reading undoes it iff the number is below 16^6 (`Hex.SixDigitsRead`).
- The client waits for a size line for ever exactly if the line does not come whole into the
  first bytes that the response buffer holds, and the buffer gets full or the stream ends
  (`HttpClient.Client.AwaitLine`, `HttpClient.Client.Retry`): a line that comes whole is awaited
  for ever iff it needs more room, with its line ends, than the buffer has
  (`HttpClient.FitsOrHangs`), and one in which the stream ends always is
  (`HttpClient.CutLineHangs`). So a well-formed body is decoded iff all its size lines fit
  (`HttpClient.Client.ReadAll`); a buffer of six bytes is too small for the line "  0"
  (`HttpClient.HangsAtLongLine`).
- The last part of a body whose length was not announced is read and not returned, unless the
  length of the body is a multiple of that of the buffer (`HttpClient.KeptIsAll`,
  `HttpClient.Client.ReadAll`); of "abc", two bytes at a time, "ab" is returned
  (`HttpClient.LosesLastPart`).
- The server answers a request of which only a part of the body has come, iff the peer closes
  the stream there (`HttpServer.Server.CutIsAnswered`), as with one of two bytes
  (`HttpServer.CutHere`).
- `GetLength` may turn from -1 to a positive value when more is read, namely iff a blank line
  is there then (`HttpHeader.MalformedStays`, `HttpHeader.MalformedIsNotFinal`), and it does not
  look at the last character of the buffer.
- Linking raises `HasParent` only for the first child of a parent
  (`LinkedMemory.HasParentMeansFirst`), as the header file says of the flag. For any other block
  that passes this check, the links spell out a forest afterwards iff the block was a root and
  the new parent is not below it (`LinkGuard.LinkIsSafe`).
- White space between the options of an Ecriture tag is collected as if it were a name, and kept
  from one option to the next. A tag is read as what it says iff white space stands for its name
  or behind an option once at most (`EcritureSpaces.SpacesExact`); every second time it adds the
  start of a tag that is none (`EcritureSpaces.SpacesCount`), as in ".a[x] [y] {}"
  (`EcritureSpaces.SpacesHere`).
- The Ecriture builder drops literals: what is read back of a printed document is the document
  without them, so printing and parsing give the same tokens iff there is none
  (`EcritureRoundTrip.RoundTrip`).
- A blank line of tabs counts for the depth of the next YAML name, as only a name or a comment
  resets the depth: the depth is that of the name's own line iff no blank line in front of it
  holds a tab (`YamlLines.DepthCommitted`); in "a: \n\t\nb: c\n" the name b is committed below a
  (`YamlLines.TabOnBlankLine`).
- A comment behind a value makes the value go on in the next line. The value is that of its own
  line iff no comment follows it, or what follows the comment adds nothing
  (`YamlLines.ValueExact`). Otherwise the next line is read into the value and is no entry
  (`YamlLines.LineLost`); "a: x#c\nb: y\n" has one entry (`YamlLines.LineBehindComment`).
- The comment on `HashTable_new` asks for a length that is a multiple of two; the code takes any
  length and rounds it up to a power of two, and so does the model.

## Model

| member | source | states |
|---|---|---|
| Chains.FreshBucket | src/HashTable.c:243-256 | using a free home bucket adds the pair, starts the key's chain, and leaves the chain of every other home as it was |
| Chains.AppendBucket | src/HashTable.c:260-282 | appending a free slot to the chain of an occupant at home adds the pair at the end of that chain and changes no other chain |
| Chains.EvictBucket | src/HashTable.c:283-306 | moving a foreign occupant away and patching its predecessor adds the pair and changes neither order nor value of any other chain, the moved key's included |
| Chains.EvictKeepsHome | src/HashTable.c:231-237 | only a foreign occupant is moved: a key in its home bucket never changes its place |
| Chains.WalkIsChain | src/HashTable.c:141-157 | following the links from any place of a chain visits the chain in order and then ends: chains are acyclic |
| Chains.OnExactlyOneChain | src/HashTable.c:210-237 | every occupied slot is reached from the home bucket of its key by exactly one number of steps, and from no other chain start |
| Chains.Home | src/HashTable.c:106-116 | hash & mask is always a bucket of the table |
| HashTable.HomeIsRemainder | src/HashTable.c:106-116 | in a table of a power of two, the home bucket is the hash modulo the size |
| Bits.Clz | src/HashTable.c:186-190 | the bit that is picked is the first set one |
| Bits.MaskIsRemainder | src/HashTable.c:106-116 | masking with 2^k - 1 gives the remainder modulo 2^k |
| HashTable.SomeSlotFree | src/HashTable.c:268-270 | a table with fewer keys than slots has a free slot, so that no allocation fails |
| HashTable.NothingFree | src/HashTable.c:198-207 | if all bitmap words are zero, no slot is free |
| HashTable.BitmapTake | src/HashTable.c:187-189 | clearing one bit takes exactly that slot from the free ones, for every slot |
| HashTable.SamePower | src/HashTable.c:28-31 | the size stays a power of two: rounding one up changes nothing |
| HashTable.AllMoved | src/HashTable.c:324-334 | when the walk finds no further entry, everything was moved, although keys were blanked on the way |
| HashTable.LoadIs | src/HashTable.c:311-320 | the load limit is reached iff count over size, as real numbers, is at least 0.85 |
| HashTable.HashTable.constructor | src/HashTable.c:21-85 | an empty table whose size is the least power of two that is large enough, with agreeing bitmap |
| HashTable.HashTable.FillBitmap | src/HashTable.c:51-76 | a bit is set iff it stands for an addressable slot |
| HashTable.HashTable.Lookup | src/HashTable.c:141-157 | returns the entry of the key with the value of the map, and null iff the key is not in the map |
| HashTable.HashTable.AllocBucket | src/HashTable.c:183-207 | returns a free slot and marks it, fails iff no slot is free, keeps all words above the upper limit zero |
| HashTable.HashTable.AllocateEntry | src/HashTable.c:238-309 | reserves an entry such that storing the key there inserts the pair; keys in their home bucket stay; no assertion on the way fails |
| HashTable.HashTable.FollowAndAppend | src/HashTable.c:272-282 | patches exactly the last slot of the chain |
| HashTable.HashTable.MoveAway | src/HashTable.c:284-305 | copies the occupant and patches exactly its predecessor, which is met before the chain ends |
| HashTable.HashTable.GetNext | src/HashTable.c:123-139 | the first occupied entry behind the given one, if there is any |
| HashTable.HashTable.MoveAll | src/HashTable.c:322-337 | rehashing moves the whole map and count to the new table |
| HashTable.HashTable.Insert | src/HashTable.c:311-349 | the map gains the pair, the count grows by one, the size doubles iff the load limit was reached; without growing, every chain keeps its keys in order and every key at home stays there |
| HashTable.HashTable.Clear | src/HashTable.c:100-104 | the map is empty and the size unchanged |
| BufferedStream.BlocksCut | src/BufferedStream.c:105-155 | the reference cut loses, doubles and reorders nothing, and all its blocks are full |
| BufferedStream.CutIsUnique | src/BufferedStream.c:105-155 | no other cut into full blocks and a rest has these properties |
| BufferedStream.BufferedStream.Write | src/BufferedStream.c:105-155 | appends all bytes to what was written, sends only full buffers, leaves what the reference cut leaves; ends though it may recurse with the same data |
| BufferedStream.BufferedStream.Flush | src/BufferedStream.c:157-172 | everything ever written is downstream, in order; the read-ahead is handed back |
| Search.Find | src/String.c:490-515 | a reported position is an occurrence; for a searchable needle it is the least one, and none is reported iff there is none |
| Search.ScanSound | src/String.c:499-512 | every reported position is an occurrence, whatever the needle |
| Search.ScanComplete | src/String.c:499-512 | the scan misses nothing for a searchable needle though it never backs up |
| Search.SearchableIsExact | src/String.c:490-515 | the search is right in every subject iff the needle is searchable |
| Search.NoRecurrence | src/String.c:490-515 | a needle whose first character does not recur is searchable |
| Search.Missed | src/String.c:506-511 | for every other needle there is a subject in which it occurs and is not found |
| Search.MissedExample | src/String.c:506-511 | "aab" is not found in "aaab" |
| Search.ScanIsAttempts | src/String.c:490-515 | what the scan reports, for every needle, as attempts from position to position that go on behind what they matched |
| Split.Join | src/String.c:935-957 | the result is the pieces with the separator between them, and the size computed before is its length |
| Split.SplitChar | src/String.c:332-351 | one step yields the slice up to the next separator, and says when there is none left |
| Split.SplitAll | src/String.c:374-391 | yields the pieces in order; the number allocated before is never exceeded |
| Split.PieceCount | src/String.c:374-383 | there is one more piece than there are separators |
| Split.JoinUndoesSplit | src/String.c:332-391 | for every string and character, joining the pieces gives back the string |
| Split.SplitUndoesJoin | src/String.c:332-391 | splitting a joint of separator-free pieces gives them back iff they are not one empty piece |
| Replace.SplitString | src/String.c:353-372 | one step yields the slice up to the next match, or the rest |
| Replace.SliceIsPiece | src/String.c:353-372 | for every non-empty needle, that slice begins behind the last one and its separator and is the next piece of the reference split |
| Replace.AllPieces | src/String.c:353-372 | run to its end, the iterator yields the pieces of the reference split, in order |
| Replace.EmptyNeedleStays | src/String.c:353-372 | with an empty needle, the iterator yields the rest of the string and then empty slices at its end, for ever |
| Replace.ReplaceAll | src/String.c:725-764 | for every non-empty needle, the pieces of the split iterator joined with the replacement |
| Replace.TailIsScan | src/String.c:735-757 | the loop cuts exactly where the search reports a match |
| Replace.ReplaceIsJoin | src/String.c:725-764 | replacing is splitting and joining |
| Replace.JoinPieces | src/String.c:353-372 | joining the pieces with the needle gives back the subject |
| Replace.PiecesAreFree | src/String.c:353-372 | for a searchable needle, no piece contains the needle |
| Replace.FreePiecesAreExact | src/String.c:353-372 | the pieces of every subject are free of the needle iff the needle is searchable |
| Format.MeasureIsLength | src/String.c:250-281 | measuring and writing agree on the length and on whether there are arguments enough |
| Format.Format | src/String.c:241-282 | writes the format with its arguments, or fails if there are too few; the buffer measured before is exactly filled |
| Format.TemplateFormats | src/String.c:241-282 | a format made of texts, with `!%` for each `%` and none but the last ending in `!`, and place holders between them is written as the texts with the arguments between them, and fails iff there are too few of these |
| Format.Parse | src/String.c:393-468 | the captures of the pattern in the subject, or failure |
| Format.TakeCapture | src/String.c:404-440 | a place holder takes the text up to the literal that follows, or up to its first character |
| Format.ParseThenFormat | src/String.c:393-468 | formatting the pattern with the captures gives a prefix of the subject, and all of it if the pattern ends in a place holder |
| Format.FormatThenParse | src/String.c:393-468 | parsing a formatted text gives back the arguments, if each is separated: the first character of the literal behind it is not in it, or that literal is one the search does not miss, stands before a place holder and comes first behind the argument |
| Format.ParseIsExact | src/String.c:393-468 | in all patterns whose literals the search does not miss, parsing gives certain captures iff the literals separate them and the pattern with them reads as the subject, or as its start if no place holder comes last |
| Format.ParseHere | src/String.c:393-468 | "%  %" on " Hello  World." gives " Hello" and "World." |
| Integer.Parse | src/Integer.c:5-45 | the loop computes the sum of digit values with the overflow and underflow checks of the source |
| Integer.Scale | src/Integer.c:14-24 | the division check catches a wrap-around of the wide types and never of the narrow ones |
| Integer.ParseFits | src/Integer.c:5-45 | the value of the digits is returned iff it fits and there is no leading minus; a leading minus is an underflow |
| Integer.ParseSkips | src/Integer.c:5-45 | characters that are no digits change nothing, unless a minus comes first |
| Integer.MinusIsUnderflow | src/Integer.c:5-45 | Underflow iff the text begins with a minus |
| Integer.LeadingZeros | src/Integer.c:5-45 | zeros in front change nothing, and no digits at all give 0 |
| Integer.WideOverflow | src/Integer.c:5-45 | with 32 and 64 bits, Overflow is raised iff the value does not fit |
| Integer.NarrowIsExact | src/Integer.c:5-45 | with 8 and 16 bits and without a leading minus, the answer is the value or Overflow as it should iff the value fits or the sum of the cut place values does not; what is returned is always the value up to a multiple of 2^8 or 2^16 |
| Integer.FewDigitsFit | src/Integer.c:5-45 | two digits always fit 8 bits and four digits 16 bits |
| Integer.NarrowOverflowMissed | src/Integer.c:5-45 | the 8-bit parser accepts "300" as 44 and the 16-bit parser "70000" as 4464 |
| Integer.CountDigits | src/Integer.c:58-66 | exactly the number of decimal digits |
| Integer.ToString | src/Integer.c:78-103 | the decimal representation, in a buffer with one byte to spare |
| Integer.ParseUndoesToString | src/Integer.c:78-103 | for every unsigned type, parsing a printed number gives it back |
| HttpHeader.GetLength | src/HTTP/Header.c:153-170 | positive iff a blank line ends inside the buffer, and then the end of the earliest one; otherwise -1 or 0 by control characters |
| HttpHeader.EndsOfLines | src/HTTP/Header.c:153-170 | the three ends of a blank line, and three that are none |
| HttpHeader.ControlIs | src/HTTP/Header.c:153-170 | which characters are control characters: those below 32 but for CR and LF, and 127 |
| HttpHeader.LengthIsFinal | src/HTTP/Header.c:153-170 | a positive result does not change when more is read |
| HttpHeader.MalformedStays | src/HTTP/Header.c:153-170 | -1 stays -1 when more is read iff there is no blank line then |
| HttpHeader.MalformedIsNotFinal | src/HTTP/Header.c:153-170 | a buffer for which -1 is returned, and a positive result once more is read |
| HttpServer.SplitOfWire | src/HTTP/Server.c:136-358 | the reference split of a stream of well-formed requests yields exactly its complete requests |
| HttpServer.HeaderDecides | src/HTTP/Server.c:159-224 | the buffer is never full without a header, and a header found is that of the next request |
| HttpServer.TooLarge | src/HTTP/Server.c:157-203 | bytes that fill the header buffer without a blank line or control character raise HeaderTooLarge, and ask for more before |
| HttpServer.HeaderIsRefused | src/HTTP/Server.c:205-277 | a header that is refused raises HeaderRefused once it is whole |
| HttpServer.MalformedHeader | src/HTTP/Server.c:159-172 | bytes with a control character and without a blank line close the connection once that character and one more are there |
| HttpServer.NoTail | src/HTTP/Server.c:157-203 | when nothing comes behind the requests, more is required |
| HttpServer.LongLine | src/HTTP/Server.c:340-358 | a request line longer than the buffer raises HeaderTooLarge |
| HttpServer.TabInLine | src/HTTP/Server.c:340-358 | a tab in a request line closes the connection |
| HttpServer.NextIsAnswered | src/HTTP/Server.c:316-334 | the bytes of the announced length behind a header are the body that was sent |
| HttpServer.Server.constructor | src/HTTP/Server.c:5-28 | an idle server; every run of well-formed requests on its connection starts framed |
| HttpServer.Server.FillHeader | src/HTTP/Server.c:157-203 | reads until a header, an error or the lack of data; received bytes are kept in order |
| HttpServer.Server.TakeHeader | src/HTTP/Server.c:222-277 | header, partial body and next request are cut at the right places |
| HttpServer.Server.TakeBody | src/HTTP/Server.c:226-265 | takes as much of the body as the header buffer holds |
| HttpServer.Server.ReadHeader | src/HTTP/Server.c:136-277 | keeps a framed run framed; incomplete means that every complete request was answered; a failure is the one that the bytes behind the answered requests call for; white space that reaches behind the header is malformed |
| HttpServer.Server.AcceptHeader | src/HTTP/Server.c:205-277 | complete, malformed by white space in front, or refused, told by the header alone |
| HttpServer.Server.ReadBody | src/HTTP/Server.c:279-314 | keeps a framed run framed; complete means that the body has its length, or that the peer has closed the stream inside it; incomplete means that every complete request was answered |
| HttpServer.Server.Respond | src/HTTP/Server.c:316-334 | answers header and body as received, also a body that was cut short |
| HttpServer.Server.Process | src/HTTP/Server.c:340-358 | received bytes are those answered plus those held; on a framed run the answered requests are the reference split of what was received, whatever the segments, and one more with the cut body if the peer has closed the stream inside it; if bytes behind the requests make a header that is too large, refused or malformed, exactly the requests are answered, and the answer is the exception or the closing that these bytes call for; if no call is in vain and more is required, all has been received |
| HttpServer.SplitOfCut | src/HTTP/Server.c:279-314 | the reference split of a stream that ends inside a body has the requests before that one |
| HttpServer.Server.CutAnswered | src/HTTP/Server.c:279-334 | the answered requests are then the reference split and the request with the part of its body that came |
| HttpServer.Server.CutIsAnswered | src/HTTP/Server.c:279-334 | once everything was received, a request was answered with a part of its body iff the stream ends inside a body |
| HttpServer.CutHere | src/HTTP/Server.c:279-314 | a stream that ends inside the body "ab" |
| Connection.Conn.Read | src/HTTP/Server.c:180-188 | recv hands out the stream in order, in segments of any size, with EAGAIN in between and the end of the stream behind it; it yields nothing exactly if there is no room or the next event has no bytes |
| Hex.ToInteger | src/Hex.c:36-56 | the signed 64-bit number that a hexadecimal number wraps to, or -1 if it is none |
| Hex.HexIsExact | src/Hex.c:36-56 | what is read is the number iff it is below 2^63, which it is with up to fifteen digits |
| Hex.HexWraps | src/Hex.c:36-56 | 2^64 is read as 0, the size of the last chunk |
| Hex.ReadUndoesPrint | src/Hex.c:24-56 | a number printed in hexadecimal digits, with small or capital letters, is read back iff it is below 2^63 |
| Hex.ToString | src/Hex.c:5-22 | the last six hexadecimal digits, zeros in front |
| Hex.SixDigitsRead | src/Hex.c:5-56 | such a text is read back as the number iff it is below 16^6 |
| HttpClient.LineEnd | src/HTTP/Client.c:212-217 | the first line end found behind a size line is its own |
| HttpClient.FitsOrHangs | src/HTTP/Client.c:411-483 | a size line that comes whole is found if it fits the buffer with its line ends, and awaited for ever otherwise |
| HttpClient.CutLineHangs | src/HTTP/Client.c:411-483 | a size line in which the stream ends is awaited for ever |
| HttpClient.HangsHere | src/HTTP/Client.c:411-483 | the line "10" in a buffer of five bytes, and cut before its line feed |
| HttpClient.MalformedLine | src/HTTP/Client.c:212-232 | a size line that is no number, or negative, is malformed, and so is one without the line end in front |
| HttpClient.CutLineThrows | src/HTTP/Client.c:411-483 | a size line in which the stream is cut, with the end not yet met, raises ConnectionError |
| HttpClient.DecodesLetters | src/HTTP/Client.c:553-575 | a chunk of the size "a" has ten bytes |
| HttpClient.Client.constructor | src/HTTP/Client.c:320-331 | what is readable at first: the front of the chunk, or the whole buffer |
| HttpClient.Client.ParseChunk | src/HTTP/Client.c:212-232 | takes one size line off the buffer and returns its size, or throws; a negative size throws, too |
| HttpClient.Client.ProcessChunk | src/HTTP/Client.c:234-245 | sets the size of the chunk and how much of it is in the buffer |
| HttpClient.Client.Retry | src/HTTP/Client.c:415-483 | one pass of the retry loop: it is left exactly as the whole wait is; without a byte gained it leaves a stuck state, from which every pass goes back with nothing changed |
| HttpClient.Client.AwaitLine | src/HTTP/Client.c:411-483 | on every stream, how the wait ends, told by what the buffer holds, what comes before a call in vain, the buffer's size and whether that call meets the end of the stream |
| HttpClient.Client.NextChunk | src/HTTP/Client.c:411-493 | on every stream, how the size line ends the wait: the next chunk begins, an exception, or for ever; with a body in order, the first if its size line fits, and the last otherwise |
| HttpClient.Client.TakeBuffered | src/HTTP/Client.c:376-402 | hands out what the response buffer holds of the chunk or of the body |
| HttpClient.Client.ReadDirect | src/HTTP/Client.c:503-526 | reads no more than the rest of the chunk into the caller's buffer |
| HttpClient.Client.Fill | src/HTTP/Client.c:404-550 | fills the caller's buffer up to the end of the chunk or of the buffer, and begins the next chunk, if its size line fits |
| HttpClient.Client.ReadPlain | src/HTTP/Client.c:517-549 | reads what comes into the caller's buffer, whatever was announced |
| HttpClient.Client.FillPlain | src/HTTP/Client.c:404-550 | fills the caller's buffer until it is full or the body ends; the answer is false iff the length is not known and the body ends first |
| HttpClient.Client.Read | src/HTTP/Client.c:355-551 | yields the next part of the body; of a chunked one, not empty unless the body ends, and without an answer only if a size line does not fit; of a plain one, as much as the buffer holds; afterwards read < total or total is 0 for chunks; false only at the end of the body or of the stream |
| HttpClient.Client.ReadAll | src/HTTP/Client.c:553-575 | for every segmentation and every buffer size, also if the peer closes behind the body: it hangs iff a size line does not fit, and else the parts make up the decoded body; of a plain body, all of it, or the part that fills the buffer again and again if its length is not known |
| HttpClient.KeptIsAll | src/HTTP/Client.c:553-575 | a plain body is returned whole iff its length is known or a multiple of the buffer's |
| HttpClient.ClosedBehindBody | src/HTTP/Client.c:553-575 | a chunked body behind which the peer closes is decoded |
| HttpClient.HangsAtLongLine | src/HTTP/Client.c:411-483 | the wait for the line "  0" in a buffer of six bytes does not end |
| HttpClient.LosesLastPart | src/HTTP/Client.c:553-575 | of the body "abc" of unknown length, two bytes at a time, "ab" is returned |
| Forests.LinkedWellFormed | src/LinkedMemory.c:121-142 | hanging a root below a node outside its subtree keeps the forest well-formed |
| Forests.PrunedWellFormed | src/LinkedMemory.c:248-267 | removing a subtree keeps the forest well-formed |
| Forests.CutWellFormed | src/LinkedMemory.c:217-246 | cutting a subtree off keeps the forest well-formed and makes its node a root |
| Forests.SubtreeIsAncestry | src/LinkedMemory.c:248-267 | the subtree of a node is exactly the nodes that have it among their ancestors |
| Forests.DropLast | src/LinkedMemory.c:258-264 | freeing the branches one by one and then the node is removing the subtree |
| LinkedMemory.LinksDetermineForest | src/LinkedMemory.h:14-21 | prev, next, child and hasParent of the live blocks spell out one forest only |
| LinkedMemory.HasParentMeansFirst | src/LinkedMemory.c:122-124 | hasParent is set exactly on first children |
| LinkedMemory.HungLaid | src/LinkedMemory.c:126-141 | the links after linking spell out the linked forest |
| LinkedMemory.UnlinkedLaid | src/LinkedMemory.c:230-245 | the links after unlinking spell out the forest with the subtree cut off |
| LinkedMemory.SumSplits | src/LinkedMemory.c:256-262 | sizes add up over disjoint sets of blocks |
| LinkedMemory.LinkedMemory.constructor | src/LinkedMemory.c:7-12 | nothing is allocated and bundling is off |
| LinkedMemory.LinkedMemory.Alloc | src/LinkedMemory.c:151-182 | without a session: a fresh root, the new base, or the last child of the base, by bundling mode; its size counts as allocated |
| LinkedMemory.LinkedMemory.Link | src/LinkedMemory.c:121-149 | HasParent iff the flag is set; else, for a root and a parent that is not below it, the block becomes the last child and nothing else changes |
| LinkGuard.LinkIsSafe | src/LinkedMemory.c:121-149 | if the flag is clear, the links after linking spell out a forest iff the block was a root and the new parent is not in its subtree |
| LinkGuard.LaterChild | src/LinkedMemory.c:121-142 | linking a later child again leaves links that spell out no forest |
| LinkGuard.OwnAncestor | src/LinkedMemory.c:121-142 | nor does linking a root below a member of its own subtree |
| LinkedMemory.LinkedMemory.Append | src/LinkedMemory.c:126-141 | the exact new links: of the parent or the last child, and of the block |
| LinkedMemory.LinkedMemory.Relink | src/LinkedMemory.c:230-245 | the exact new links of parent and neighbours |
| LinkedMemory.LinkedMemory.Release | src/LinkedMemory.c:248-267 | frees exactly the subtree and returns the sum of its sizes, also while freeing is under way further up |
| LinkedMemory.LinkedMemory.Free | src/LinkedMemory.c:269-272 | the same for callers; bytes allocated stay bytes live plus bytes freed; bundling falls back if the base is gone |
| LinkedMemory.LinkedMemory.Bundle | src/LinkedMemory.c:291-297 | AlreadyBundling unless bundling was off |
| LinkedMemory.LinkedMemory.Commit | src/LinkedMemory.c:299-306 | NotBundling if bundling was off; afterwards it is |
| StringReader.StringReader.Consume | src/StringReader.c:55-63 | moves the cursor and counts lines |
| StringReader.LineAt | src/StringReader.c:55-63 | the line is one more than the line feeds in front |
| StringReader.StringReader.Extend | src/StringReader.c:71-88 | moves the cursor and lets the slice start or grow |
| StringReader.CoversMore | src/StringReader.c:71-88 | a slice extended at every step is the text passed |
| Chars.TrimLeftIs | src/String.c:544-559 | exactly the white space in front is gone |
| Chars.TrimRightIs | src/String.c:544-559 | exactly the white space at the end is gone |
| Chars.TrimHere | src/Char.c:49-56 | all six white space characters are trimmed, and which of the others are none |
| Ecriture.Parser.ParseAttrValue | src/Ecriture/Parser.c:13-31 | an attribute value up to the first bracket that no backtick guards |
| Ecriture.Parser.ParseOption | src/Ecriture/Parser.c:33-56 | an option, or an attribute name and its value |
| Ecriture.Parser.ParseComment | src/Ecriture/Parser.c:58-78 | a comment up to its first end mark |
| Ecriture.Parser.ParseLiteral | src/Ecriture/Parser.c:80-101 | a literal up to the backtick that closes it, which two in a row do not |
| Ecriture.Parser.IsTag | src/Ecriture/Parser.c:135-152 | whether only name characters precede the next bracket or brace |
| Ecriture.Parser.ParseTag | src/Ecriture/Parser.c:105-133 | name, options and body of a tag, white-space names and all |
| Ecriture.Parser.Parse | src/Ecriture/Parser.c:154-202 | text and everything that interrupts it, in order and with lines |
| Ecriture.Parser.Process | src/Ecriture/Parser.c:204-211 | the events of the document and Done |
| Ecriture.Builder.ProcessToken | src/Ecriture/Builder.c:18-54 | what is written for a token, with the brace that was deferred |
| EcritureRoundTrip.PrintedDoc | src/Ecriture/Builder.c:18-54 | the tokens of a well-nested document are printed as its text, without its literals |
| EcritureReading.CloseFinds | src/Ecriture/Parser.c:20-30 | a guarded text is read up to the closing character behind it |
| EcritureReading.TextSkips | src/Ecriture/Parser.c:160-197 | a quiet text is read to its end, whatever follows |
| EcritureReading.LiteralFinds | src/Ecriture/Parser.c:80-101 | a text with backticks in pairs only is read as a literal up to the backtick behind it |
| EcritureReading.NameCodes | src/Ecriture/Parser.c:145-147 | the characters of a name, by their ASCII codes |
| EcritureReading.OptsParse | src/Ecriture/Parser.c:105-133 | the options of a tag are read as what they say, with white space behind one of them at most, whatever ends them |
| EcritureReading.DocReads | src/Ecriture/Parser.c:105-202 | the text of a document, literals included, gives its events with their lines, and the parser goes on right behind it |
| EcritureReading.CutReads | src/Ecriture/Parser.c:13-202 | a comment, literal, option or attribute that breaks off gives no token; a tag that breaks off in its body is ended all the same |
| EcritureReading.TextReads | src/Ecriture/Parser.c:204-211 | the events of a whole text, with their lines: those of the document, of what breaks off behind it, and Done |
| EcritureReading.LiteralReads | src/Ecriture/Parser.c:80-101 | a document that is one literal gives that literal and Done |
| EcritureReading.LiteralHere | src/Ecriture/Parser.c:80-101 | "`.br{}`" gives the literal ".br{}" and Done |
| EcritureSpaces.SpacesCount | src/Ecriture/Parser.c:105-133 | how many events a tag with white space behind its options has: one too many for every two such places |
| EcritureSpaces.SpacesExact | src/Ecriture/Parser.c:105-133 | such a tag is read as what it says iff there is one such place at most |
| EcritureSpaces.SpacesHere | src/Ecriture/Parser.c:105-133 | ".a[x] [y] {}" is read as one event more than it says |
| EcritureRoundTrip.EventTokens | src/Ecriture/Parser.c:105-202 | the tokens of those events are the tokens of the document |
| EcritureRoundTrip.RoundTrip | src/Ecriture/Parser.c:204-211 | parsing the builder's output yields the tokens of the document without its literals, plus Done; these are the tokens printed iff there are no literals |
| EcritureRoundTrip.PrintAndParse | src/Ecriture/Builder.c:18-54 | the same of the builder and the parser run one after the other |
| Yaml.Parser.CommitDepth | src/YAML/Parser.c:17-34 | InvalidIndention iff more than one level deeper; else one Enter or the right number of Leaves |
| Yaml.Parser.ParseComment | src/YAML/Parser.c:36-52 | a comment up to the end of its line |
| Yaml.Parser.ParseValue | src/YAML/Parser.c:54-75 | a value, the comments in it included |
| Yaml.Parser.Parse | src/YAML/Parser.c:77-124 | tokens, exception and last depth of a document |
| Yaml.Parser.Process | src/YAML/Parser.c:126-136 | the same, with the open sections left at the end |
| YamlTree.Tree.Initialize | src/YAML/Tree.c:21-29 | the root and one node below it |
| YamlTree.Tree.AddCustomNode | src/Tree.c:41-62 | a fresh last child with its parent set |
| YamlTree.Tree.ProcessToken | src/YAML/Tree.c:31-48 | the nodes hold what the token makes of the tree; no assertion fails when the token is acceptable |
| YamlTree.StepOrdered | src/YAML/Tree.c:31-48 | every token keeps the order of creation the preorder of the tree, and the current node on the path of last children |
| YamlTree.PathGrows | src/Tree.c:41-62 | a new last child of a node on that path is last in preorder |
| YamlDocument.ParseRuns | src/YAML/Parser.c:77-124 | whatever the parser hands out, the builder accepts; the nodes added are the names at the depths committed, with their values |
| YamlDocument.DocumentRuns | src/YAML/Parser.c:126-136 | for every text: no assertion of the builder fails and the preorder of the tree is the names at their depths; if the text parses, Enter and Leave are balanced and never negative and the builder is back where it began |
| YamlDocument.Load | src/YAML/Tree.c:31-48 | the same of the parser and the builder run together |
| YamlOutline.LineRead | src/YAML/Parser.c:77-124 | a written line is read as one entry unless it is indented too far |
| YamlOutline.OutlineReads | src/YAML/Parser.c:77-136 | a written outline is accepted iff no line is more than one level deeper than the one before; the entries read back are the outline |
| YamlOutline.OutlineBuilds | src/YAML/Tree.c:31-48 | and the tree built has the outline's shape |
| YamlListing.CommentIs | src/YAML/Parser.c:36-52 | the text of a comment, up to the end of its line or of the document, and no token if it is empty |
| YamlListing.ItemReads | src/YAML/Parser.c:77-124 | one line, read as the tokens it says, with the depth and the permission to indent behind it, or as the exception it calls for |
| YamlListing.DocumentSays | src/YAML/Parser.c:77-136 | for every document of names, values, comments, empty lines and faulty lines, the tokens, in order, up to the first line that is wrong, and the exception; a name in front of a comment is dropped, and no name is deeper than the last one behind a comment |
| YamlLines.BlankSkips | src/YAML/Parser.c:96-121 | white space between names only counts its tabs, line breaks or not |
| YamlLines.DepthCommitted | src/YAML/Parser.c:77-124 | a name is committed with the tabs of all blank lines in front of it and its own; this is the depth of its own line iff those blank lines hold no tab |
| YamlLines.LineBehindBlank | src/YAML/Parser.c:77-124 | a written line behind blank lines is one entry, deeper by their tabs, or InvalidIndention |
| YamlLines.TabOnBlankLine | src/YAML/Parser.c:77-136 | in "a: \n\t\nb: c\n" the name b is committed at depth 1 |
| YamlLines.ValueExact | src/YAML/Parser.c:54-75 | the value is the trimmed text of its line up to the first comment mark iff there is no comment, or nothing is added behind it |
| YamlLines.VoidExact | src/YAML/Parser.c:54-75 | the value is empty iff it and, behind a comment in its place, the lines that follow are white space |
| YamlLines.CommentSwallows | src/YAML/Parser.c:54-75 | the line behind a comment is read into the value, as many characters as it has |
| YamlLines.LineLost | src/YAML/Parser.c:77-124 | a written line with a comment takes in the line that follows, of which no entry is made |
| YamlLines.LineBehindComment | src/YAML/Parser.c:54-75 | "a: x#c\nb: y\n" has the one entry a, with the value "x#c\nb" |

## Left out

- HashTable.HashTable.Insert: asks for a non-empty key, as the empty key marks a free slot, and for a size below 2^30 before it doubles, as `1 << i` overflows beyond; `valueSize` and null values are not modelled, a value is one unit.
- The hash function itself, the LowMemory and Bitmap variants, and a `HashTable_MaximumLoad` of 0; the loop that zeroes later bitmap words never runs and is an assertion here.
- LinkedMemory.LinkedMemory.Link: asks that a block without the flag is a root and that the parent is not below it, which the code does not check; `LinkGuard.LinkIsSafe` shows that otherwise no forest is left to describe.
- Sessions, `Realloc`, `Clone` and `GetSize` of the allocator: sessions reuse the links of siblings, and `Realloc` treats a parent as a sibling.
- HttpServer.Server.Process: says nothing about the answered requests when the stream has white space between requests, control characters in headers before the last request, or multipart bodies (unfinished in the source); the conservation of bytes and termination hold for these, too. Behind the requests it expects nothing, or bytes that never make a header that is accepted.
- HttpServer.Server.AcceptHeader: white space in front of a request that reaches behind the end of its header is reported as malformed; the source computes a wrapped length there.
- Parsing of header fields, the request callbacks and `persistentConnection`: what a header says about its body is an arbitrary function, and answering is recording header and body.
- HttpClient.Client.Read: begins behind the response header and the first size line; requests and response headers are not modelled. What it hands out is told for bodies that are in order and for plain ones; of other chunked streams it tells how the wait for the next size line ends.
- HttpClient.Client.ParseChunk: an empty size and sizes that read as negative count as malformed; the source reads in front of the buffer for the one and goes on with the negative size for the other.
- Errors of `recv` other than EAGAIN.
- Ecriture option unescaping (src/Ecriture.c) and the document tree of Ecriture.
- EcritureReading.TextReads: no two texts side by side, as the parser joins them, and nothing but white space between the options of a tag; `Ecriture.TagOut` describes what is read there, too.
- EcritureRoundTrip.RoundTrip: for names and options without white space around them, as the parser trims names; lines are the matter of `EcritureReading.TextReads`.
- YamlListing.DocumentSays: no tabs on empty lines, and a comment behind a value only before an empty line or the end; `YamlLines` says how the rest is read.
- `BufferedStream_Read`, `Reset` and `Close`; `Write` assumes an output buffer of at least one byte and a downstream that takes every write in full, as its assertion does.
- Format.ParseThenFormat: for patterns without `!` and without adjacent place holders; `Fmt` and `Run` describe formatting and parsing for all patterns.
- Signed integers; the `Compare` functions.
- `EventQueue`, `DateTime`, `Pattern`, the terminal, file, process and socket wrappers, the exception machinery, and the ELF and DWARF readers.
