# Verified models of a booking engine and the libraries it runs on

The repository is a small seat-booking application and the Go libraries vendored with it. This
project models the parts of it whose correctness is not plain from the code, in Dafny, and proves
what those parts are for.

| module | component | main results |
|---|---|---|
| `Basics` | optional values, results, int32, white space | shared by the others |
| `Punycode`, `PunycodeLaws` (with `Arithmetic`) | `encode` and `decode` of sections 6.1 to 6.3 of RFC 3492 over int32 | exact condition for the round trip; no int32 operation is wrong without an error; laws that fix the digits and the bias adaptation, and known labels |
| `PathTree`, `PathText`, `PathSlices` | the route trie | lookups agree with a linear scan of the routes in the order they were added; how paths are split and matched; when the shared slice of expansions is right, and when it is not |
| `Escape`, `CharRefs` | in-place HTML unescaping, escaping, newline conversion | in-place rewriting equals a left-to-right function; unescape after escape is the identity; what every numeric and named reference stands for |
| `Tokenizer`, `HtmlText`, `ScriptText`, `TokenStrings`, `TokenValues`, `TokenForms` | the HTML tokenizer and its buffer | however the reader chunks the input, the tokens are those of a tokenizer over the plain text, and they tile it; tokens that `String` writes are found again; where script text ends |
| `NodeList` | child lists of the HTML tree | pointer surgery refines sequence insertion and removal; when the nodes stay a forest |
| `ListenerConn`, `ListenerConnProgress` | one LISTEN/NOTIFY connection of pq | one query in flight, no panic, a bounded reply channel, own replies only, in every interleaving; two calls can block each other for ever, and nothing else blocks one |
| `Listener` | the reconnecting layer above it | the server's set equals the client's; a nil between connections; what Close does |
| `Context` | the cancellation tree | closed once and exactly when cancelled, downward propagation of the error of the cause, the earlier deadline, progress and termination |
| `GorpBind`, `GorpVersions` | gorp's statements and optimistic locking | statements mean what the struct says; no update is lost, and exactly when one is |
| `SeatBooking` | `BlockSeat` and `ConfirmSeat` over Redis | legal status changes only; exactly when a returned `true` means an effect |
| `CopyIn`, `CopyFormat`, `Bytea` | COPY rows and bytea values | buffering conserves the rows; the server reads back every value |
| `ConnInfo`, `UrlParts` | connection strings | what a URL renders to is read back, exactly if all of its parts are clean |
| `Uuid` | version 1 UUIDs | time and text round trips, order, and exactly which times are ordered |
| `ConfigData`, `ConfigText`, `ConfigLines`, `ConfigRoundTrip`, `Config` | configuration files | counters keep everything distinct and in order; what is written is read back, and exactly which lines are |

Protocols (`ListenerConn`, `Listener`, `Context`, `GorpVersions`, `SeatBooking`) are state machines:
a state, the actions that each goroutine, client or server may take, and what an action does.
A property of every run is proved from an invariant that every action keeps. Code that changes
buffers, arrays, pointers or fields is imperative Dafny, each method proved against a function of
its inputs or of the state before it, and the lemmas are about those functions.

What the model does with things outside the program: readers, the network and the server are
nondeterministic or parameters of an action; the entity tables of `html` are a parameter that is
narrow, as its own comment asks (`src/code.google.com/p/go.net/html/entity.go:2157-2161`); clocks
and timers are actions that may happen at any time; random bytes are a parameter.

## What turned out to be different from what one would expect

The code is modelled as it is. Where it does not do what its documentation or its callers count on,
there is a lemma with the failing input or run, and a lemma that says exactly when it does.

- `decode` refuses the encoding of some long labels: 317 or more `a` followed by U+10FFFF
  (`Punycode.LongLabelRefused`); `Punycode.RoundTrip` gives the exact condition, which every label
  of at most 139 characters meets. `encode`'s test `delta < 0` catches every delta that does
  not fit in labels of up to 3855 characters (`Punycode.Encode`), and with one more it can miss one
  (`Punycode.WrapIsMissed`); `decode` refuses whatever is then written (`Punycode.LongRefused`,
  `Punycode.WrittenComesBack`).
- A route with an extension hides a plain route of the same shape, also one that was added first
  (`PathTree.ExtensionBeatsOrder`, `PathTree.EarliestFitIsFoundIffNotHidden`).
- Expansions of `Find` can be wrong. The branches of a search share one slice: with four wildcards a
  younger route can overwrite the last expansion of the route that is found
  (`PathSlices.FourthIsWrong`), and a route with an extension before its end can take the extension
  off an expansion of another route (`PathSlices.ExtensionIsWrong`). With at most three wildcards in
  every route and extensions only at the end they are always right (`PathSlices.ExpansionsAreRight`);
  which route is found never depends on the sharing (`PathSlices.LeafIsRight`).
- Trailing slashes are without consequence, as the documentation has it, exactly if there is only one
  (`PathText.TrailingSlashIff`).
- A numeric reference stands for its number modulo 2^32: `&#4294967361;` is "A"
  (`CharRefs.LargeNumberIsRune`; `CharRefs.NoRuneReads` says exactly which numbers give U+FFFD). One
  decimal digit without a semicolon is left as it is, and `&#x;` is U+FFFD (`CharRefs.ReferenceReads`,
  `CharRefs.NoDigits`).
- Two callers of `ExecSimpleQuery` can block each other for ever: one waits for `senderLock` with
  `connectionLock` in hand, and the receive loop, or the owner of `senderLock` after a failed write,
  needs `connectionLock` (`ListenerConnProgress.DeadlockHappens`,
  `ListenerConnProgress.DeadlockIsForEver`). In every other state with a call under way somebody can
  go on (`ListenerConnProgress.NeverStuckUnlessDeadlocked`).
- In an escaped section of script text a "<" that is followed by neither "/" nor a letter leads back
  to plain script text, where the HTML standard stays in the section
  (`ScriptText.CommentGoesOn`).
- `Token.String` writes comments and doctypes as they are, but `Text` unescapes them: a comment `&lt;`
  comes back as `<` (`TokenValues.CommentIsUnescaped`). A comment comes back only if its data encloses
  no end of a comment, counting the dashes of its opening (`TokenStrings.CommentReadsIff`).
- The documentation of `EscapeString` names five characters; the code escapes a sixth, the
  carriage return (`src/code.google.com/p/go.net/html/escape.go:196-236`). The model has all six.
- Raw text of an element other than `script` is not ended by an end tag that stands right after another `<`
  (`HtmlText.DoubledAngleHidesEndTag`; `HtmlText.FirstTagIsFoundIff` has the exact condition).
- `Listener.Close` while the loop waits or is about to dial does not stop it: the connection is made
  and its notifications are passed on (`Listener.CloseWithoutConnection`). At every other point Close
  is final (`Listener.CloseIsFinal`, `Listener.NeverDialsAgainIff`).
- Channel names with a NUL are cut by `QuoteIdentifier`, and the server's set is then not the
  client's (`Listener.NulNamesDiverge`).
- A struct with version 0 overwrites a row of version 1 without raising its version, and the next
  update loses that write (`GorpVersions.VersionZeroLosesUpdate`). An INSERT that fails leaves
  version 1 in such a struct, whose UPDATE then overwrites the row that was in the way
  (`GorpVersions.FailedInsertLosesUpdate`). An INSERT or UPDATE that is rolled back leaves its new
  version in the struct, whose UPDATE then overwrites another's write of that version
  (`GorpVersions.RolledBackUpdateLosesUpdate`, `GorpVersions.RolledBackInsertLosesUpdate`). An update
  is good exactly when the struct's version came from a Get of a committed write, from a committed
  UPDATE, or from the committed INSERT of a struct without version
  (`GorpVersions.GoodExactlyWhenBacked`).
- A key that is deleted and used again loses updates (`GorpVersions.ReusedKeyLosesUpdate`). Using
  it again is safe, whatever follows, exactly when nobody has an old struct of the key with a higher
  version than the inserted one (`GorpVersions.InsertSafeIff`).
- `InsertBefore` with an `oldChild` of another node leaves pointers that no lists of children agree
  with (`NodeList.ForeignSiblingBreaks`); with one of its own, or none, everything agrees
  (`NodeList.Node.InsertBefore`).
- `BlockSeat` takes the nil reply of an aborted EXEC for success
  (`SeatBooking.BothReturnTrue`), and a watch left behind on a pooled connection can abort a later
  call on another seat, which then also returns true (`SeatBooking.LeftoverWatchAborts`).
- A COPY row that fails at a value leaves its first values in the buffer, and they become part of
  the next row (`CopyIn.TornRowJoinsNext`); the text is as before exactly if its first value is the
  one that fails (`CopyIn.TornIffNotFirst`, `CopyIn.ExecFails`).
- `Close` called directly leaves the COPY statement open: another `Close` sends the rest of the buffer
  again and waits for ever (`CopyIn.CloseTwice`).
- A part of a URL whose key is no key, or whose value has white space other than the plain space, is
  not read back from the connection string, and it can take clean parts with it
  (`UrlParts.DirtyPartLosesOthers`). With one part for each key, all parts are read back exactly when
  all of them are clean (`UrlParts.UrlReadsIff`).
- Options and values of a Config that look like comments, headers or other options when they are
  written are not read back; `ConfigText.OptionReadsIff` and `ConfigText.MoreReadsIff` say exactly
  which lines are.
- `Nanoseconds` wraps for times before September 1677 and after April 2262, which a parsed UUID may
  have (`Uuid.ExactIff`). A UUID is ordered by its time among those whose times fit exactly when its
  own time fits (`Uuid.OrderedByTimeIff`).
- `config.write` removes every option that it writes: afterwards the Config has its sections and
  nothing in them (`Config.Config.Write`).

## Model

| member | source | states |
|---|---|---|
| `Punycode.RoundTrip` | src/code.google.com/p/go.net/idna/punycode.go:31-162 | for every label, decoding its encoding gives back the label if it is pure ASCII, or is short enough for `decode`'s output limit and every delta passes `decode`'s weight guard; otherwise it is refused: never a wrong label |
| `Punycode.WrittenComesBack` | src/code.google.com/p/go.net/idna/punycode.go:31-162 | the same of whatever `encode` returns, also where its deltas may have wrapped |
| `Punycode.LongRefused` | src/code.google.com/p/go.net/idna/punycode.go:83-85 | more code points than `decode` has room for are refused, whatever deltas stand for them |
| `Punycode.ShortRoundTrip` | src/code.google.com/p/go.net/idna/punycode.go:31-162 | every label of at most 139 scalar values comes back exactly; in particular every label of 63 |
| `Punycode.LongLabelRefused` | src/code.google.com/p/go.net/idna/punycode.go:73-76 | a whole family of valid labels, 317 or more `a` and U+10FFFF, whose encodings are refused by the weight guard |
| `Punycode.Decode` | src/code.google.com/p/go.net/idna/punycode.go:31-91 | the int32 loop equals the decoder over unbounded integers on every input: each sum and product is exact or the call fails, and each insertion index is in range |
| `Punycode.DecodeRound` | src/code.google.com/p/go.net/idna/punycode.go:48-89 | one inserted code point: the state stays in range and the rest decodes to the same result |
| `Punycode.Advance` | src/code.google.com/p/go.net/idna/punycode.go:78-88 | the unguarded sum `n += i / x` cannot overflow, thanks to the bound on the first delta when x is 1; the index is within the output |
| `Punycode.DecodeVarInt` | src/code.google.com/p/go.net/idna/punycode.go:51-77 | reads exactly one variable-length integer or fails exactly when its value or weight does not fit; a first value leaves room for the initial code point |
| `Punycode.Accumulate` | src/code.google.com/p/go.net/idna/punycode.go:60-63 | the wrapped sum is negative exactly when the true sum exceeds int32 |
| `Punycode.NextWeight` | src/code.google.com/p/go.net/idna/punycode.go:73-76 | under the guard the product cannot wrap |
| `Punycode.AdaptInt32` | src/code.google.com/p/go.net/idna/punycode.go:187-200 | bias adaptation in int32 equals the unbounded one and stays within 252 |
| `Punycode.Encode` | src/code.google.com/p/go.net/idna/punycode.go:98-162 | for up to 1926 scalar values, and for ASCII, the prefix followed by the basic code points, the delimiter and the deltas of the label; for up to 3855 the same or an error; for longer labels an error, or the same with some delta for each code point |
| `Punycode.WrapIsMissed` | src/code.google.com/p/go.net/idna/punycode.go:122-125 | a label of 3856 code points with a delta that does not fit int32 and wraps to a number that is not negative |
| `Punycode.Increase` | src/code.google.com/p/go.net/idna/punycode.go:122-125 | the sum in int32 is the true one if that fits, and negative if it does not but is below 2^32 |
| `Punycode.EncodeDeltas` | src/code.google.com/p/go.net/idna/punycode.go:115-161 | the outer loop writes one delta for each non-ASCII code point, and exactly those of the label unless one may have wrapped unseen |
| `Punycode.EncodePass` | src/code.google.com/p/go.net/idna/punycode.go:127-159 | one pass over the label at one code point: output, bias and count as the specification says, and delta too unless it may have wrapped unseen |
| `Punycode.NextPass` | src/code.google.com/p/go.net/idna/punycode.go:116-126 | the next code point is the least one left; for up to 3855 code points the increase of delta is exact or negative, and for up to 1926 exact |
| `Punycode.ScanLeast` | src/code.google.com/p/go.net/idna/punycode.go:116-121 | the least code point not below n |
| `Punycode.WriteVarInt` | src/code.google.com/p/go.net/idna/punycode.go:138-152 | writes one variable-length integer |
| `Punycode.ReadWritten` | src/code.google.com/p/go.net/idna/punycode.go:51-77 | reading a written variable-length integer gives the number and the rest, exactly when value and weight fit |
| `Punycode.DecodeRendered` | src/code.google.com/p/go.net/idna/punycode.go:48-89 | decoding a rendered list of deltas performs exactly those insertions, or fails exactly when one does not fit |
| `Punycode.Replay` | src/code.google.com/p/go.net/idna/punycode.go:115-160 | the insertions that the encoder's deltas stand for rebuild the label, or exceed the decoder's limit, for every label |
| `Punycode.DeltasBounded` | src/code.google.com/p/go.net/idna/punycode.go:122-158 | every delta of a label is below 1113984 times its length |
| `Punycode.SmallFits` | src/code.google.com/p/go.net/idna/punycode.go:73-76 | small deltas pass the weight guard whatever the bias |
| `PunycodeLaws.FirstIsDamped` | src/code.google.com/p/go.net/idna/punycode.go:187-192 | the bias after a first delta is that after a later delta of twice its 700th part |
| `PunycodeLaws.ShareIsAdded` | src/code.google.com/p/go.net/idna/punycode.go:193 | the share of each code point is added once: with as many code points that there is none, the same bias follows from the larger delta |
| `PunycodeLaws.SmallBias` | src/code.google.com/p/go.net/idna/punycode.go:194-199 | the bias of a damped delta of up to 455 is 36 e / (e + 38) |
| `PunycodeLaws.LargeBias` | src/code.google.com/p/go.net/idna/punycode.go:195-199 | above, it is 36 more than that of its 35th part; the four laws leave one adaptation |
| `PunycodeLaws.DigitsAre` | src/code.google.com/p/go.net/idna/punycode.go:177-185 | the digits are a to z and then 0 to 9 |
| `PunycodeLaws.DigitsRead` | src/code.google.com/p/go.net/idna/punycode.go:164-175 | exactly letters and digits are read, capitals like small letters |
| `PunycodeLaws.WeightGuardIs` | src/code.google.com/p/go.net/idna/punycode.go:73-75 | the guard lets through a weight if 36 times one more of it still is an int32 |
| `PunycodeLaws.SurrogatesAreReplaced` | src/code.google.com/p/go.net/idna/punycode.go:90-90 | a surrogate in the output becomes U+FFFD |
| `PunycodeLaws.OneRune` | src/code.google.com/p/go.net/idna/punycode.go:98-162 | for every label with one code point that is not ASCII, wherever it stands, the delta that is written |
| `PunycodeLaws.TwoRunes` | src/code.google.com/p/go.net/idna/punycode.go:98-162 | the same for two of them at the end of any ASCII text |
| `PunycodeLaws.Buecher` | src/code.google.com/p/go.net/idna/punycode.go:98-162 | the encoding of a known label, letter by letter |
| `PunycodeLaws.HelloWorld` | src/code.google.com/p/go.net/idna/punycode.go:98-162 | the same for a label with two Chinese characters, whose second delta has an adapted bias |
| `PunycodeLaws.Czech` | src/code.google.com/p/go.net/idna/punycode.go:98-162 | example (D) of section 7.1 of RFC 3492: four deltas under four biases |
| `PathTree.FindAgreesWithScan` | src/github.com/robfig/pathtree/tree.go:67-195 | after any sequence of Adds, Find returns the leaf of the first route, in the order added, that serves the path, with what the wildcards of that route stand for, one string for each name, and no leaf if and only if no route serves it |
| `PathTree.PlainRoutesServeAllTheyMatch` | src/github.com/robfig/pathtree/tree.go:152-195 | without extensions a route serves exactly the paths it matches, so the earliest matching route is found |
| `PathTree.EarliestFitIsFoundIffNotHidden` | src/github.com/robfig/pathtree/tree.go:153-164 | with extensions: the earliest fitting route is found if and only if it has an extension itself or no route of its shape has the path's extension |
| `PathTree.ExtensionBeatsOrder` | src/github.com/robfig/pathtree/tree.go:153-164 | a route added second wins by its extension |
| `PathTree.FailedAddChangesNothing` | src/github.com/robfig/pathtree/tree.go:67-140 | an Add that returns an error changes no lookup |
| `PathTree.AddChangesOneKey` | src/github.com/robfig/pathtree/tree.go:77-140 | an Add stores its leaf under its own shape and extension, unless one is there, and changes nothing under any other |
| `PathTree.AddMalformed` | src/github.com/robfig/pathtree/tree.go:107-111 | a path with an empty element is refused and stores nothing |
| `PathTree.RunRepresents` | src/github.com/robfig/pathtree/tree.go:67-140 | after every sequence of Adds the trie holds exactly the accepted routes |
| `PathTree.FindIsOldest` | src/github.com/robfig/pathtree/tree.go:152-195 | the leaf found is no younger than any leaf that serves the path |
| `PathTree.FindIsServed` | src/github.com/robfig/pathtree/tree.go:152-195 | a leaf found belongs to a shape that matches the path, and the expansions are what its wildcards stand for |
| `PathTree.ExpansionCount` | src/github.com/robfig/pathtree/tree.go:152-195 | a match has one expansion per wildcard of the shape |
| `PathTree.NameCount` | src/github.com/robfig/pathtree/tree.go:113-139 | a route has one name per wildcard of its shape |
| `PathText.PathReads` | src/github.com/robfig/pathtree/tree.go:205-214 | every list of elements without slashes whose last is not empty comes apart again from the path that it is joined to; none comes from "/" |
| `PathText.SlashReads` | src/github.com/robfig/pathtree/tree.go:205-214 | the same with a slash at the end |
| `PathText.JoinSplit` | src/github.com/robfig/pathtree/tree.go:205-214 | what is split is the elements between the slashes |
| `PathText.TrailingSlashIff` | src/github.com/robfig/pathtree/tree.go:9-9 | a slash more changes the elements if and only if there is one at the end already |
| `PathText.ExtensionIsLast` | src/github.com/robfig/pathtree/tree.go:197-203 | the extension starts at the last dot |
| `PathText.MatchesIff` | src/github.com/robfig/pathtree/tree.go:152-195 | a pattern matches a path if and only if, up to its star, each element is a wildcard or the same, and something is left for the star, or nothing at all without one |
| `PathText.MalformedIff` | src/github.com/robfig/pathtree/tree.go:107-111 | a pattern is refused for an empty element if and only if one comes before its star |
| `PathText.NameAndExpansion` | src/github.com/robfig/pathtree/tree.go:152-195 | the i-th wildcard stands for the element in its own place, and a star for all elements from its place on |
| `PathSlices.LeafIsRight` | src/github.com/robfig/pathtree/tree.go:152-195 | with the slices as Go has them, after any sequence of Adds: the leaf and the number of expansions are those of the first route that serves the path |
| `PathSlices.ExpansionsAreRight` | src/github.com/robfig/pathtree/tree.go:152-195 | if no route has more than three wildcards and extensions are at the end of their routes, the expansions are what the wildcards stand for |
| `PathSlices.SearchIsRight` | src/github.com/robfig/pathtree/tree.go:152-195 | under these conditions a search changes nothing that was in an array but, at the end of a path and below a wildcard, the last expansion |
| `PathSlices.FourthIsWrong` | src/github.com/robfig/pathtree/tree.go:171-192 | two routes with four wildcards, and a path whose last expansion is that of the other route |
| `PathSlices.ExtensionIsWrong` | src/github.com/robfig/pathtree/tree.go:153-164 | two routes, one with an extension before its end, and a path whose first expansion has lost its extension |
| `Escape.UnescapeEscape` | src/code.google.com/p/go.net/html/escape.go:167-258 | unescaping the escaped text gives back every byte string, in text and in attributes |
| `Escape.Unescape` | src/code.google.com/p/go.net/html/escape.go:167-184 | the in-place result equals the left-to-right unescape of the original bytes |
| `Escape.UnescapeEntity` | src/code.google.com/p/go.net/html/escape.go:57-163 | one entity: the output goes behind the read cursor, and no byte that is still to be read is changed |
| `Escape.EntityShrinks` | src/code.google.com/p/go.net/html/escape.go:57-163 | an entity's text is never longer than what it replaces, given a narrow table |
| `Escape.ReadNumeric` | src/code.google.com/p/go.net/html/escape.go:68-120 | the numeric forms, with int32 wrap-around, the replacement table and the limits |
| `Escape.ReadNamed` | src/code.google.com/p/go.net/html/escape.go:122-162 | the named forms, with the attribute rule and the longest prefix without semicolon |
| `Escape.WriteEscaped` | src/code.google.com/p/go.net/html/escape.go:196-231 | the writer loop emits the escape of every byte in order |
| `Escape.EscapeString` | src/code.google.com/p/go.net/html/escape.go:237-244 | with or without special bytes, the escaped text |
| `Escape.UnescapeString` | src/code.google.com/p/go.net/html/escape.go:251-258 | with or without an ampersand, the unescaped text |
| `Escape.ConvertNewlines` | src/code.google.com/p/go.net/html/token.go:1076-1104 | in place, every CR and CRLF becomes LF and nothing else changes |
| `Escape.LineEnds` | src/code.google.com/p/go.net/html/token.go:1076-1104 | a line is kept and each of its three possible ends becomes LF |
| `Escape.EscapedIsClean` | src/code.google.com/p/go.net/html/escape.go:196-231 | what is escaped holds no byte that has a meaning in HTML, and each of its ampersands starts one of the six references |
| `CharRefs.ReferenceReads` | src/code.google.com/p/go.net/html/escape.go:68-120 | any digits in any base, with or without semicolon, and whatever follows: how many bytes are replaced, and by the rune of the number modulo 2^32, or that they are left as they are |
| `CharRefs.NumberReads` | src/code.google.com/p/go.net/html/escape.go:68-120 | every number, written by division in base 10 or 16 in either case, is replaced, wherever it stands, by the rune that its low 32 bits stand for |
| `CharRefs.ScalarReads` | src/code.google.com/p/go.net/html/escape.go:68-120 | every scalar value but 0 and 0x80 to 0x9F is the rune that its number says |
| `CharRefs.WindowsReads` | src/code.google.com/p/go.net/html/escape.go:14-49 | 0x80 to 0x9F are the characters of Windows-1252 |
| `CharRefs.NoRuneReads` | src/code.google.com/p/go.net/html/escape.go:115-118 | 0, a surrogate or a number above 0x10FFFF gives U+FFFD if and only if its low 32 bits are none or U+FFFD either |
| `CharRefs.LargeNumberIsRune` | src/code.google.com/p/go.net/html/escape.go:81-100 | a number above 2^32 that is a letter |
| `CharRefs.NoDigits` | src/code.google.com/p/go.net/html/escape.go:68-111 | a reference without digits is left as it is in base 10, and U+FFFD in base 16 |
| `CharRefs.DigitsRead` | src/code.google.com/p/go.net/html/escape.go:81-100 | digits written by division read as the number |
| `CharRefs.RuneReads` | src/code.google.com/p/go.net/html/escape.go:120-120 | what is written for a scalar value reads as it by section 3 of RFC 3629, whatever follows |
| `CharRefs.KnownNameReads` | src/code.google.com/p/go.net/html/escape.go:137-142 | a known name is replaced, but in an attribute value not if it has no semicolon and "=" follows |
| `CharRefs.KnownStartReads` | src/code.google.com/p/go.net/html/escape.go:147-157 | in text the longest known start of an unknown name, of two to six bytes, is replaced |
| `CharRefs.UnknownIsLeft` | src/code.google.com/p/go.net/html/escape.go:147-162 | an unknown name without such a start, or in an attribute value, is left as it is |
| `Tokenizer.TokenizeAll` | src/code.google.com/p/go.net/html/token.go:950-1072 | for every input and every chunking the raw slices concatenate to a prefix of the input; when it ends in EOF they are the whole input, and the sequence of token types and slices is the one that the text has, a function of the text alone |
| `Tokenizer.Tokenizer.Next` | src/code.google.com/p/go.net/html/token.go:950-1067 | a token starts where the last one ended; it consumes a byte or is the error token; after an error nothing more is consumed; without a limit and with no error but EOF, its type, data span, attribute spans, end and pending raw element are those that the text has there, however it is delivered |
| `Tokenizer.Tokenizer.ReadByte` | src/code.google.com/p/go.net/html/token.go:234-287 | the next byte of the input whether or not the buffer moves; every live span still denotes the same offsets of the text |
| `Tokenizer.Tokenizer.Relocate` | src/code.google.com/p/go.net/html/token.go:242-269 | moving the live bytes to the front, into the same or a larger buffer, keeps them and every span, and leaves room to read into |
| `Tokenizer.Tokenizer.MoveToFront` | src/code.google.com/p/go.net/html/token.go:245-253 | the copy between overlapping buffers keeps the bytes and leaves space |
| `Tokenizer.Tokenizer.Refill` | src/code.google.com/p/go.net/html/token.go:270-279 | the reader is never offered an empty slice; what it delivers follows what is there |
| `Tokenizer.Tokenizer.ReadAtLeastOneByte` | src/code.google.com/p/go.net/html/token.go:297-305 | some bytes or an error, after up to 100 empty reads |
| `Tokenizer.Tokenizer.SkipWhiteSpace` | src/code.google.com/p/go.net/html/token.go:308-324 | stops at the first byte that is no white space, or at the end |
| `Tokenizer.Tokenizer.ReadUntilCloseAngle` | src/code.google.com/p/go.net/html/token.go:645-658 | the data is what stands before the next '>' |
| `Tokenizer.Tokenizer.ReadRawOrRCDATA` | src/code.google.com/p/go.net/html/token.go:329-360 | stops before the end tag of the raw element, or at the end |
| `Tokenizer.Tokenizer.ReadRawEndTag` | src/code.google.com/p/go.net/html/token.go:366-389 | found exactly if the raw element's name, in either case, and a byte that ends a name follow; then backs up to the "</" |
| `Tokenizer.Tokenizer.ReadScript` | src/code.google.com/p/go.net/html/token.go:393-596 | the gotos of the script states, over a buffer that moves, end where the state machine over the text ends |
| `Tokenizer.Tokenizer.ScriptStep` | src/code.google.com/p/go.net/html/token.go:399-595 | each state does to cursor and state what its step over the text does |
| `Tokenizer.Tokenizer.ReadComment` | src/code.google.com/p/go.net/html/token.go:600-641 | the comment's data and end, with the forms "-->", "--!>", dashes at the end of the input and comments that are too short |
| `Tokenizer.Tokenizer.ReadMarkupDeclaration` | src/code.google.com/p/go.net/html/token.go:663-688 | comment, doctype, CDATA section or bogus comment, with data and end, also where the input is cut short |
| `Tokenizer.Tokenizer.ReadDoctype` | src/code.google.com/p/go.net/html/token.go:692-713 | found exactly if the word is there in either case; the data starts after white space |
| `Tokenizer.Tokenizer.ReadCDATA` | src/code.google.com/p/go.net/html/token.go:717-752 | found exactly if the opening is there; the data ends before "]]>" |
| `Tokenizer.Tokenizer.ReadTag` | src/code.google.com/p/go.net/html/token.go:816-841 | the name's span, and the attributes up to and including the '>' |
| `Tokenizer.Tokenizer.ReadTagAttrKey` | src/code.google.com/p/go.net/html/token.go:867-886 | the key's span, and which byte after it is consumed |
| `Tokenizer.Tokenizer.ReadTagAttrVal` | src/code.google.com/p/go.net/html/token.go:888-947 | the value's span: none, quoted or unquoted, and which byte after it is consumed |
| `Tokenizer.Tokenizer.ReadStartTag` | src/code.google.com/p/go.net/html/token.go:778-810 | self-closing or not, and the raw element if the name is one of ten |
| `Tokenizer.Tokenizer.Raw` | src/code.google.com/p/go.net/html/token.go:1070-1072 | the slice of the input that the token covers |
| `HtmlText.SlicesTile` | src/code.google.com/p/go.net/html/token.go:950-1072 | the tokens of a text tile it: nothing is skipped and nothing repeated |
| `HtmlText.ParseMovesOn` | src/code.google.com/p/go.net/html/token.go:950-1067 | every token of a text ends after its start or with the text; only at the end of the text is there an ErrorToken without an open tag |
| `HtmlText.ScriptEndsAtTag` | src/code.google.com/p/go.net/html/token.go:393-596 | from every state, script text ends only at a script end tag or with the text |
| `HtmlText.StepProgresses` | src/code.google.com/p/go.net/html/token.go:393-596 | every step of the script states consumes a byte or comes closer to one that does, so the scan terminates |
| `HtmlText.RawTextEndsAtTag` | src/code.google.com/p/go.net/html/token.go:329-360 | raw text ends only at an end tag of its element or with the text |
| `HtmlText.FirstTagIsFoundIff` | src/code.google.com/p/go.net/html/token.go:336-355 | the first end tag of the element ends raw text if and only if an even number of `<` stands directly before it |
| `HtmlText.DoubledAngleHidesEndTag` | src/code.google.com/p/go.net/html/token.go:338-352 | after "<<" an end tag is not recognised, whatever the element |
| `HtmlText.ScansFindFirst` | src/code.google.com/p/go.net/html/token.go:845-947 | the scans for white space, names, keys, values and single bytes find the first offset that fits |
| `HtmlText.FirstLetterDecides` | src/code.google.com/p/go.net/html/token.go:778-803 | choosing the words by their first letter loses none of the raw elements |
| `ScriptText.ScriptIsModes` | src/code.google.com/p/go.net/html/token.go:393-596 | from any of the sixteen states, script text ends where the three modes and their marks have it end |
| `ScriptText.FirstEndTagEndsScript` | src/code.google.com/p/go.net/html/token.go:393-596 | without a "<!--" before it, the first end tag ends script text |
| `ScriptText.NoEndTagNoEnd` | src/code.google.com/p/go.net/html/token.go:393-596 | without an end tag it ends with the text |
| `ScriptText.CommentOpens` | src/code.google.com/p/go.net/html/token.go:409-463 | the first "<!--" before any end tag leads to an escaped section |
| `ScriptText.CommentGoesOn` | src/code.google.com/p/go.net/html/token.go:451-534 | of an escaped section the first end tag, inner "<script", "-->" or stray "<" decides: the text ends, an inner script begins, or plain script text goes on |
| `ScriptText.InnerScriptGoesOn` | src/code.google.com/p/go.net/html/token.go:535-595 | of an inner script the first end tag or "-->" decides: the escaped section goes on, or plain script text |
| `TokenStrings.WrittenTokensRead` | src/code.google.com/p/go.net/html/token.go:950-1067 | every list of proper tokens, written one after the other, is the list of tokens that is found: names, keys, values, data and types |
| `TokenStrings.StartScans` | src/code.google.com/p/go.net/html/token.go:778-886 | a start tag as it is written: its name, the spans of all its attributes, and whether it closes itself |
| `TokenStrings.CommentReadsIff` | src/code.google.com/p/go.net/html/token.go:600-641 | a comment as it is written is read with its data if and only if that encloses no end of it |
| `TokenStrings.NoAngleEncloses` | src/code.google.com/p/go.net/html/token.go:600-641 | data without ">" encloses none, unless it ends in "!" |
| `TokenForms.QuotedValueReads` | src/code.google.com/p/go.net/html/token.go:907-923 | a value in single or double quotes, with white space around its equals sign, up to the same quote |
| `TokenForms.UnquotedValueReads` | src/code.google.com/p/go.net/html/token.go:925-946 | a value without quotes, up to white space or the end of the tag |
| `TokenForms.KeyEnds` | src/code.google.com/p/go.net/html/token.go:867-886 | a key ends before an equals sign or ">", and otherwise with the byte after it |
| `TokenForms.BangEndsComment` | src/code.google.com/p/go.net/html/token.go:624-634 | "--!>" ends a comment as "-->" does |
| `TokenForms.NoValueReads` | src/code.google.com/p/go.net/html/token.go:888-901 | no value without an equals sign |
| `TokenForms.CutTagIsError` | src/code.google.com/p/go.net/html/token.go:816-841 | a tag without ">" is an ErrorToken |
| `TokenForms.TagEndsAtAngle` | src/code.google.com/p/go.net/html/token.go:816-841 | every tag ends right after a ">" |
| `TokenForms.CutCommentScans` | src/code.google.com/p/go.net/html/token.go:600-612 | a comment that does not end is all that is left, but for up to two dashes at its end |
| `TokenForms.LooseAngleIsText` | src/code.google.com/p/go.net/html/token.go:978-1001 | where no "<" opens anything, all that is left is one text |
| `TokenForms.CDataScansIff` | src/code.google.com/p/go.net/html/token.go:717-752 | a section is read with its data if and only if that contains no "]]>" |
| `TokenForms.CDataReads` | src/code.google.com/p/go.net/html/token.go:679-687 | where it is allowed a CDATA section is text, its data what stands before the end that the scan finds |
| `TokenForms.NoCDataReads` | src/code.google.com/p/go.net/html/token.go:683-752 | elsewhere, and for any other opening, a comment up to the next ">", empty if it is cut short |
| `TokenForms.BogusReads` | src/code.google.com/p/go.net/html/token.go:1040-1057 | "<?" and "</" before what is no letter are comments up to the next ">" |
| `TokenForms.RawElementReads` | src/code.google.com/p/go.net/html/token.go:958-973 | the text of a raw element other than script is one token up to the first end tag of the element, if an even number of "<" stands before that |
| `TokenForms.ScriptReads` | src/code.google.com/p/go.net/html/token.go:958-973 | the text of a script is one token up to the first end tag, if no "<!--" stands before that |
| `TokenForms.EndTagIs` | src/code.google.com/p/go.net/html/token.go:366-389 | an end tag is "</", the element's name in either case, and white space, "/" or ">" |
| `TokenForms.RawTagIsKept` | src/code.google.com/p/go.net/html/token.go:778-803 | the name of a raw element, in either case, is left for the next token |
| `TokenValues.StringsRead` | src/code.google.com/p/go.net/html/token.go:82-122 | tokens that String wrote are the tokens that Next and Token find, whatever bytes texts and attribute values hold |
| `TokenValues.ValueIsKept` | src/code.google.com/p/go.net/html/token.go:1113-1187 | what Token decodes of a written token is the token |
| `TokenValues.CommentIsUnescaped` | src/code.google.com/p/go.net/html/token.go:1113-1127 | a comment that does not come back |
| `NodeList.Node.InsertBefore` | src/code.google.com/p/go.net/html/node.go:53-77 | refused, without change, exactly if the new child has a parent; else, if oldChild is nil or a child of this node, its list has the new child before oldChild, or last, no other list changes, and all five pointers of all nodes agree with the lists |
| `NodeList.ForeignSiblingBreaks` | src/code.google.com/p/go.net/html/node.go:57-76 | after InsertBefore with any other oldChild no lists of children agree with the pointers |
| `NodeList.Node.AppendChild` | src/code.google.com/p/go.net/html/node.go:81-96 | as InsertBefore, at the end |
| `NodeList.Node.RemoveChild` | src/code.google.com/p/go.net/html/node.go:100-119 | refused, without change, exactly if it is not a child; else it leaves the list, without parent and siblings, and everything else agrees |
| `NodeList.ReparentChildren` | src/code.google.com/p/go.net/html/node.go:122-131 | terminates; the destination has its own children and then the source's, in order; no other list changes |
| `NodeList.InsertKeepsConsistent` | src/code.google.com/p/go.net/html/node.go:63-76 | the pointer writes of an insertion keep every list of the heap consistent |
| `NodeList.RemoveKeepsConsistent` | src/code.google.com/p/go.net/html/node.go:104-118 | the pointer writes of a removal keep every list of the heap consistent |
| `NodeList.InsertKeepsForest` | src/code.google.com/p/go.net/html/node.go:53-77 | an insertion keeps the nodes a forest if and only if the new child is neither the parent nor above it |
| `NodeList.RemoveKeepsForest` | src/code.google.com/p/go.net/html/node.go:100-119 | a removal keeps the nodes a forest |
| `ListenerConn.Safety` | src/github.com/lib/pq/notify.go:89-206 | in every interleaving, with any server: the panic is unreachable, at most one query is in flight, the reply channel holds at most 2, and a push never blocks |
| `ListenerConn.RepliesAreOwn` | src/github.com/lib/pq/notify.go:270-322 | in every interleaving a call takes only replies that arrived during its own query, and with a server that answers in order, only answers to that query |
| `ListenerConn.RunsKeepInv` | src/github.com/lib/pq/notify.go:89-322 | locks, connection state, channel and program counters stay consistent in every run |
| `ListenerConn.StepKeepsInv` | src/github.com/lib/pq/notify.go:89-322 | each step of each participant keeps that invariant |
| `ListenerConnProgress.NeverStuckUnlessDeadlocked` | src/github.com/lib/pq/notify.go:89-327 | with a server that does its work, while a call is under way some call, the loop or the server can take a step, unless two calls block each other |
| `ListenerConnProgress.AllReturnUnlessDeadlocked` | src/github.com/lib/pq/notify.go:89-327 | in every run, when nothing can go on any more all calls have returned or two block each other |
| `ListenerConnProgress.ProgressEnds` | src/github.com/lib/pq/notify.go:89-327 | without new calls the number of steps left is bounded |
| `ListenerConnProgress.DeadlockIsForEver` | src/github.com/lib/pq/notify.go:89-97 | two calls that block each other do so in every state of every continuation |
| `ListenerConnProgress.DeadlockHappens` | src/github.com/lib/pq/notify.go:89-97 | two calls and a lost connection that lead there, from the start |
| `ListenerConnProgress.QueryIsAnswered` | src/github.com/lib/pq/notify.go:239-322 | a run in which a query is answered and the connection is as it was |
| `Listener.ServerListensToChannels` | src/github.com/lib/pq/notify.go:445-550 | on every connection in use, for as long as each query on it was answered, the server's set is exactly the Listener's channels, in every run with NUL-free names |
| `Listener.CallTakesEffect` | src/github.com/lib/pq/notify.go:445-550 | a Listen, Unlisten or UnlistenAll that succeeds takes effect with the Listener and on the connection; one that is refused, or comes after Close, changes nothing |
| `Listener.NulNamesDiverge` | src/github.com/lib/pq/notify.go:209-216 | for every name with a NUL the two sets differ after one successful Listen |
| `Listener.QuotedNameIsRead` | src/github.com/lib/pq/conn.go:1132-1138 | the server reads back the caller's name from the quoted identifier if and only if it has no NUL |
| `Listener.RunsKeepDelivering` | src/github.com/lib/pq/notify.go:592-745 | in every run: no panic, one nil per reconnection, and all that a connection received goes over Notify in order after the last nil |
| `Listener.NilBetween` | src/github.com/lib/pq/notify.go:718-735 | between notifications of two different connections there is a nil |
| `Listener.Safety` | src/github.com/lib/pq/notify.go:570-745 | the same for every run from NewListener on |
| `Listener.NeverPanics` | src/github.com/lib/pq/notify.go:570-745 | in every run from NewListener on: no panic, and one nil, sent or about to be, for every connection after the first |
| `Listener.NothingIsLost` | src/github.com/lib/pq/notify.go:592-745 | in every run from NewListener on, what a connection received is what went over Notify since the last nil and what is still in its buffer |
| `Listener.ListensFromStart` | src/github.com/lib/pq/notify.go:445-550 | in every run from NewListener on with NUL-free names, the server's set is the Listener's channels while each query was answered |
| `Listener.CloseIsFinal` | src/github.com/lib/pq/notify.go:671-745 | closed at any point but before dialling, a Listener never dials again |
| `Listener.CloseWithoutConnection` | src/github.com/lib/pq/notify.go:671-745 | closed when it is about to dial, it can connect and pass on notifications, from every such state |
| `Listener.NeverDialsAgainIff` | src/github.com/lib/pq/notify.go:671-745 | a closed Listener never dials again, in any run, if and only if it is not about to |
| `Context.RunsKeepInv` | src/code.google.com/p/go.net/context/context.go:285-357 | in every interleaving of creations, cancels and deadlines the tree's invariant holds |
| `Context.DoneIsClosedOnceIffErr` | src/code.google.com/p/go.net/context/context.go:325-348 | neither internal error happens; done is closed at most once and exactly when err is set |
| `Context.CancelledMeansAllBelow` | src/code.google.com/p/go.net/context/context.go:341-348 | when a ctx is seen cancelled, every ctx below it is cancelled |
| `Context.DeadlinesOnlyShrink` | src/code.google.com/p/go.net/context/context.go:235-255 | no deadline is later than one above it; below a cancelable ctx all are cancelable |
| `Context.DeadlineIsEarlier` | src/code.google.com/p/go.net/context/context.go:235-242 | in every run after its creation a ctx has the earlier of the deadline asked for and the inherited one, the inherited one if none is asked for |
| `Context.MayBeCancelledIff` | src/code.google.com/p/go.net/context/context.go:235-255 | who may cancel a new ctx from outside: its CancelFunc, a timer if and only if its deadline is the one asked for, the watcher of a foreign parent |
| `Context.DeadlineErrorNeedsDeadline` | src/code.google.com/p/go.net/context/context.go:235-357 | in every run only a ctx with a deadline has DeadlineExceeded |
| `Context.CancelFuncRemoves` | src/code.google.com/p/go.net/context/context.go:349-356 | a ctx that its CancelFunc cancels first has left its parent once the cancel has ended, or has only that to do |
| `Context.RemovedForGood` | src/code.google.com/p/go.net/context/context.go:349-356 | a child that was removed is forgotten for the rest of the run |
| `Context.ErrorIsFinal` | src/code.google.com/p/go.net/context/context.go:333-342 | the error of the first cancel, the parent and the deadline never change |
| `Context.CancelsHaveCauses` | src/code.google.com/p/go.net/context/context.go:285-357 | a ctx that is cancelled has the error of a cancel that was called on it or on one above it, as have all ctxs in between |
| `Context.CancelIsNeverStuck` | src/code.google.com/p/go.net/context/context.go:341-348 | while any cancel is under way some cancel can take a step: locks are taken downward only |
| `Context.CancelTerminates` | src/code.google.com/p/go.net/context/context.go:341-348 | cancels under way take a bounded number of steps |
| `GorpBind.BuildUpdate` | src/github.com/coopernurse/gorp/gorp.go:397-453 | clause by clause: the written columns in order, the keys, the version, with their arguments |
| `GorpBind.BuildInsert` | src/github.com/coopernurse/gorp/gorp.go:339-395 | clause by clause, with automatic columns as the dialect has them |
| `GorpBind.BuildDelete` | src/github.com/coopernurse/gorp/gorp.go:455-499 | clause by clause: the keys, and the version if it is stored |
| `GorpBind.UpdateIsPositional` | src/github.com/coopernurse/gorp/gorp.go:397-453 | the k-th bind variable in the text is number k, and there are as many as arguments |
| `GorpBind.InsertIsPositional` | src/github.com/coopernurse/gorp/gorp.go:339-395 | the same for INSERT |
| `GorpBind.DeleteIsPositional` | src/github.com/coopernurse/gorp/gorp.go:455-499 | the same for DELETE |
| `GorpBind.CreateBindInstance` | src/github.com/coopernurse/gorp/gorp.go:286-327 | the value bound to each argument, where a version 0 is changed in the struct as soon as the marker is met |
| `GorpBind.UpdateHits` | src/github.com/coopernurse/gorp/gorp.go:425-445 | an UPDATE hits exactly the rows with the struct's keys and the version it looks for, which is 1 for a struct of version 0 |
| `GorpBind.UpdateMeans` | src/github.com/coopernurse/gorp/gorp.go:397-453 | an UPDATE writes every stored column from the struct, the version one higher, and leaves the others |
| `GorpBind.InsertMeans` | src/github.com/coopernurse/gorp/gorp.go:339-395 | an INSERT makes a row of the struct's values, the version one higher, and automatic values, and nothing else |
| `GorpBind.DeleteHits` | src/github.com/coopernurse/gorp/gorp.go:455-499 | a DELETE hits exactly the rows with the struct's keys and its own version |
| `GorpBind.TableMap.BindUpdate` | src/github.com/coopernurse/gorp/gorp.go:397-453 | the cached or new plan is the one for the table as it is now, bound to the struct |
| `GorpBind.TableMap.BindInsert` | src/github.com/coopernurse/gorp/gorp.go:339-395 | the same for INSERT; a version 0 becomes 1 in the struct |
| `GorpBind.TableMap.BindDelete` | src/github.com/coopernurse/gorp/gorp.go:455-499 | the same for DELETE; the struct is not changed |
| `GorpBind.TableMap.SetVersionCol` | src/github.com/coopernurse/gorp/gorp.go:270-275 | no stale plan stays in the cache |
| `GorpVersions.NoLostUpdate` | src/github.com/coopernurse/gorp/gorp.go:1846-1896 | in every interleaving of careful clients, with failing statements and rolled-back transactions, each row's updates have consecutive versions, each built on its immediate predecessor |
| `GorpVersions.RollbackKeepsInv` | src/github.com/coopernurse/gorp/gorp.go:1244-1254 | whatever statements a transaction made, rolling it back keeps the invariant: no struct is taken to be backed by a write that did not happen |
| `GorpVersions.UpdatesIffUnchanged` | src/github.com/coopernurse/gorp/gorp.go:1846-1896 | an update of a struct whose version came from a committed write goes through if and only if nobody wrote the row since; otherwise a lock error and no change |
| `GorpVersions.DeletesIffUnchanged` | src/github.com/coopernurse/gorp/gorp.go:1798-1844 | the same for a delete |
| `GorpVersions.NotDoneChangesNoRow` | src/github.com/coopernurse/gorp/gorp.go:1828-1831 | a statement that is not done changes no row; it is a lock error if and only if the version is positive, a failed INSERT if and only if the row exists |
| `GorpVersions.SilentUpdate` | src/github.com/coopernurse/gorp/gorp.go:1877-1884 | an UPDATE of a struct without version that hits no row passes in silence and leaves version 1 in the struct |
| `GorpVersions.GoodExactlyWhenBacked` | src/github.com/coopernurse/gorp/gorp.go:286-327 | an update that goes through continues the row's history properly if and only if the struct's version came from a Get of a committed write or from a committed statement |
| `GorpVersions.InsertKeepsInvIff` | src/github.com/coopernurse/gorp/gorp.go:1898-1948 | an INSERT that goes through keeps the invariant if and only if no old struct of its key is ahead of it |
| `GorpVersions.InsertSafeIff` | src/github.com/coopernurse/gorp/gorp.go:1898-1948 | after an INSERT that goes through, every continuation of careful clients keeps every row's history proper if and only if no old struct of its key is ahead of it |
| `GorpVersions.OldStructOverwrites` | src/github.com/coopernurse/gorp/gorp.go:1846-1896 | with an old struct that is n versions ahead of the new row, n updates and one more make an update be lost |
| `GorpVersions.FailedInsertLosesUpdate` | src/github.com/coopernurse/gorp/gorp.go:296-303 | a run in which a struct whose INSERT failed makes an update be lost |
| `GorpVersions.RolledBackUpdateLosesUpdate` | src/github.com/coopernurse/gorp/gorp.go:1882-1884 | a run in which a struct whose UPDATE was rolled back makes an update be lost |
| `GorpVersions.RolledBackInsertLosesUpdate` | src/github.com/coopernurse/gorp/gorp.go:296-303 | a run in which a struct whose INSERT was rolled back makes an update be lost |
| `GorpVersions.BindingIsBound` | src/github.com/coopernurse/gorp/gorp.go:296-303 | what binding leaves in a struct whose statement fails is what the state machine has |
| `GorpVersions.UpdateIsStep` | src/github.com/coopernurse/gorp/gorp.go:1846-1896 | for any number of key columns, the bound UPDATE statement hits a row, and changes its keys and version, exactly as the step of the state machine does |
| `GorpVersions.InsertIsStep` | src/github.com/coopernurse/gorp/gorp.go:1898-1948 | for any number of key columns, chosen by the database or not, the bound INSERT statement makes the row that the step makes |
| `GorpVersions.DeleteIsStep` | src/github.com/coopernurse/gorp/gorp.go:1798-1844 | for any number of key columns, the bound DELETE statement hits a row exactly as the step does |
| `GorpVersions.VersionZeroLosesUpdate` | src/github.com/coopernurse/gorp/gorp.go:296-301 | a run in which a struct of version 0 makes an update be lost |
| `GorpVersions.ReusedKeyLosesUpdate` | src/github.com/coopernurse/gorp/gorp.go:1798-1844 | a run in which a deleted and reused key makes an update be lost |
| `SeatBooking.RunsKeepInv` | src/booking-engine/app/helpers/redis_helper.go:102-149 | in every interleaving of calls and loads, with leftover watches, the store follows the log and every write of a call was legal |
| `SeatBooking.ChangesAreLegal` | src/booking-engine/app/helpers/redis_helper.go:102-149 | in every run a call changes a seat only from free to blocked or from blocked to confirmed |
| `SeatBooking.OneEffectPerLoad` | src/booking-engine/app/helpers/redis_helper.go:102-149 | between two blocks, or two confirmations, of a seat that took effect, it was loaded again |
| `SeatBooking.TrueMeansEffectIff` | src/booking-engine/app/helpers/redis_helper.go:119-128 | a call that reaches EXEC returns true, and took effect if and only if no key watched on its connection, by it or by earlier calls, was written after its WATCH |
| `SeatBooking.BothReturnTrue` | src/booking-engine/app/helpers/redis_helper.go:102-131 | on every free seat two BlockSeat calls can both return true with one effect |
| `SeatBooking.LeftoverWatchAborts` | src/booking-engine/app/helpers/redis_helper.go:102-131 | with one connection and no other caller, BlockSeat can return true without effect |
| `SeatBooking.BothFromStart` | src/booking-engine/app/helpers/redis_helper.go:102-131 | a run from the start in which two callers get one seat |
| `SeatBooking.BlockedIsConfirmed` | src/booking-engine/app/helpers/redis_helper.go:133-149 | alone on its connection, ConfirmSeat confirms a blocked seat |
| `SeatBooking.FalseMeansNoEffect` | src/booking-engine/app/helpers/redis_helper.go:102-149 | a call returns true if and only if it reached EXEC and got a reply; false means no effect, unless the reply was lost |
| `SeatBooking.FailsIff` | src/booking-engine/app/helpers/redis_helper.go:107-128 | before EXEC a call fails if and only if the seat is missing or has another status than expected |
| `CopyIn.CopyIn.Exec` | src/github.com/lib/pq/copy.go:182-216 | a row goes into the text exactly once, or up to the value that fails; until the end nothing is lost or repeated by a flush; the outcome for each error |
| `CopyIn.CopyIn.Close` | src/github.com/lib/pq/copy.go:218-241 | the rest of the buffer is sent before CopyDone, after which everything encoded has been sent exactly once; a second Close sends the rest again |
| `CopyIn.CloseTwice` | src/github.com/lib/pq/copy.go:218-241 | a second direct Close never succeeds, and what was in the buffer is then sent twice |
| `CopyIn.CopyIn.Flush` | src/github.com/lib/pq/copy.go:129-137 | one message with its length in its header, or the connection is broken |
| `CopyIn.CopyRows` | src/github.com/lib/pq/copy.go:182-241 | for every error-free sequence of rows and the final Exec, the payloads sent concatenate to the encoded rows, each once and in order; lengths fit if no row is too long |
| `CopyIn.StreamReads` | src/github.com/lib/pq/copy.go:129-137 | a server that follows the length fields finds exactly the payloads in the stream of bytes |
| `CopyIn.LengthReads` | src/github.com/lib/pq/copy.go:129-132 | the length field is right if and only if the length fits in 32 bits |
| `CopyIn.AppendEscapedText` | src/github.com/lib/pq/encode.go:109-145 | the text with backslash, newline, carriage return and tab escaped, with and without the fast path |
| `CopyIn.AppendEncodedText` | src/github.com/lib/pq/encode.go:83-107 | NULL, strings, byte strings and formatted numbers, booleans and times are encoded; other types are refused |
| `CopyIn.RowsRead` | src/github.com/lib/pq/encode.go:83-145 | splitting the encoded rows on newline and tab and unescaping recovers every value of every row |
| `CopyFormat.KnownRow` | src/github.com/lib/pq/copy.go:190-212 | a row with NULL, a tab and a backslash, byte by byte |
| `CopyFormat.EscapesAre` | src/github.com/lib/pq/encode.go:109-145 | the four escapes of the text format, and no other |
| `CopyFormat.KnownMessage` | src/github.com/lib/pq/copy.go:129-137 | a message starts with "d" and its length counts itself |
| `CopyIn.EscapedIsNotNull` | src/github.com/lib/pq/encode.go:83-145 | no string is encoded like NULL |
| `CopyIn.TornRowJoinsNext` | src/github.com/lib/pq/copy.go:199-207 | the first values of a row that failed are sent as part of the next row |
| `CopyIn.TornIffNotFirst` | src/github.com/lib/pq/copy.go:199-207 | a row that fails leaves the text as it was if and only if its first value is the one that cannot be encoded |
| `CopyIn.ExecFails` | src/github.com/lib/pq/copy.go:182-216 | Exec of a row fails to encode exactly if it has a value that cannot be encoded, and then sends nothing and leaves the text as it was exactly if that is the first value |
| `Bytea.ByteaRoundTrip` | src/github.com/lib/pq/encode.go:278-343 | parsing an encoded byte string gives it back, in both formats |
| `Bytea.EscapedNeverLooksHex` | src/github.com/lib/pq/encode.go:278-343 | the escape format is never mistaken for hex |
| `Bytea.HexIff` | src/github.com/lib/pq/encode.go:325-343 | what is written starts with "\x" if and only if the server is 9.0 or later |
| `Bytea.HexIsLower` | src/github.com/lib/pq/encode.go:326-328 | hexadecimal digits are written in lower case, two for each byte |
| `Bytea.HexDigitsRead` | src/github.com/lib/pq/encode.go:279-286 | and read in either case |
| `Bytea.EscapedIsPrintable` | src/github.com/lib/pq/encode.go:330-343 | the older format is printable ASCII, and leaves a byte string as it is if and only if that is printable and has no backslash |
| `Bytea.OctalReads` | src/github.com/lib/pq/encode.go:298-307 | which three bytes are read as an octal escape: a sign is taken for the first digit |
| `Bytea.EncodeBytea` | src/github.com/lib/pq/encode.go:325-343 | the format that the server's version calls for |
| `Bytea.ParseBytea` | src/github.com/lib/pq/encode.go:278-323 | both formats, with every error, reading raw runs in one go |
| `ConnInfo.RenderedUrlReads` | src/github.com/lib/pq/url.go:41-75 | the parts of a URL with a value, escaped, sorted and joined, are parsed back: every key, with the value of the part of that key whose text is the greatest, and no other key |
| `ConnInfo.DistinctPartsRead` | src/github.com/lib/pq/url.go:41-75 | with one part for each key, every part is read back exactly |
| `UrlParts.UrlReadsIff` | src/github.com/lib/pq/url.go:41-75 | with one part for each key, all parts of a URL are read back if and only if every key reads as a key and no value has white space but plain spaces |
| `UrlParts.PairReadsIff` | src/github.com/lib/pq/url.go:41-47 | the same for one part alone |
| `UrlParts.DirtyPartLosesOthers` | src/github.com/lib/pq/url.go:41-75 | a family of URLs in which one part with another kind of white space makes the whole text unreadable |
| `UrlParts.TextReads` | src/github.com/lib/pq/conn.go:270-344 | from any place in the text: no more keys with quotes are read, by length, than were written, less if a quoted value is read, and without one every value has plain spaces only |
| `ConnInfo.ParseOpts` | src/github.com/lib/pq/conn.go:270-344 | equals the recursive reading of the text, with every error |
| `ConnInfo.ParsePair` | src/github.com/lib/pq/conn.go:273-341 | one turn of the loop: what is left reads to the same result |
| `ConnInfo.Scanner.SkipSpaces` | src/github.com/lib/pq/conn.go:259-265 | the next character that is no white space, if any |
| `ConnInfo.Scanner.ReadUnquoted` | src/github.com/lib/pq/conn.go:309-321 | a value up to white space, with backslashes |
| `ConnInfo.Scanner.ReadQuoted` | src/github.com/lib/pq/conn.go:322-338 | a value up to the closing quote, with backslashes |
| `ConnInfo.PairReads` | src/github.com/lib/pq/url.go:41-47 | one rendered pair is read back and the rest is read on top of it |
| `ConnInfo.KnownText` | src/github.com/lib/pq/conn.go:270-344 | a text with a quoted value and escapes, read option by option |
| `ConnInfo.FirstDifferenceDecides` | src/github.com/lib/pq/url.go:69-75 | the order that decides between parts is that of the texts: a prefix first, then by the first difference |
| `Uuid.TimeRoundTrip` | src/github.com/streadway/simpleuuid/uuid.go:88-106 | the time of a built UUID is the instant cut toward zero to 100 ns, for every int64 |
| `Uuid.TimeFits` | src/github.com/streadway/simpleuuid/uuid.go:257-263 | every instant fits the 60-bit field: no overflow and no lost bit |
| `Uuid.EpochIsDays` | src/github.com/streadway/simpleuuid/uuid.go:46-46 | the epoch is the days from 15 October 1582 to 1 January 1970, in units of 100 ns |
| `Uuid.EpochBytes` | src/github.com/streadway/simpleuuid/uuid.go:88-106 | the sixteen bytes of the first instant of 1970 |
| `Uuid.CutTowardZero` | src/github.com/streadway/simpleuuid/uuid.go:257-263 | an instant is cut to a multiple of 100 ns, toward 1970 and by less than that |
| `Uuid.NewTimeBytes` | src/github.com/streadway/simpleuuid/uuid.go:88-106 | all bytes of the UUID, for every tail: up to 8 bytes leave the time alone, longer ones run over it, more than 16 are refused |
| `Uuid.CompareByTimeThenTail` | src/github.com/streadway/simpleuuid/uuid.go:217-226 | built UUIDs compare by instant and then by tail, as equal only if they are |
| `Uuid.CompareIsOrder` | src/github.com/streadway/simpleuuid/uuid.go:217-226 | Compare, with the wrap of int64, is antisymmetric and transitive on all UUIDs |
| `Uuid.LexIsOrder` | src/github.com/streadway/simpleuuid/uuid.go:217-226 | tails are in the order of the numbers that they are, the first byte first |
| `Uuid.ExactIff` | src/github.com/streadway/simpleuuid/uuid.go:165-171 | the nanoseconds of a UUID are those of its time if and only if they fit int64 |
| `Uuid.OrderedByTimeIff` | src/github.com/streadway/simpleuuid/uuid.go:217-226 | a UUID is ordered by time among all whose times fit if and only if its own does |
| `Uuid.TextRoundTrip` | src/github.com/streadway/simpleuuid/uuid.go:140-216 | every UUID is read back from its text |
| `Uuid.DashesAre` | src/github.com/streadway/simpleuuid/uuid.go:207-214 | the text has 36 characters, dashes in the four places of section 3 of RFC 4122, and lower-case hexadecimal digits in all others |
| `ConfigData.RunsKeepInv` | src/github.com/robfig/config/option.go:26-53 | in every reachable Config section ids are distinct and option positions are distinct and below their section's counter |
| `ConfigData.OrderIsComplete` | src/github.com/robfig/config/section.go:74-88 | the ordered list has every name once, in the order of the numbers |
| `ConfigData.ItemsAreOptions` | src/github.com/robfig/config/write.go:67-80 | a section's lines are its options, each once, in order |
| `ConfigData.DocumentPutOption` | src/github.com/robfig/config/option.go:26-39 | an option comes last in its section, whichever that is, also if it was there before, and nothing else changes |
| `ConfigData.DocumentRemoveOption` | src/github.com/robfig/config/option.go:44-53 | removing an option takes away its line and changes nothing else |
| `ConfigData.DocumentRemoveSection` | src/github.com/robfig/config/section.go:45-62 | removing a section, unless it is the default one, takes it away and changes nothing else |
| `ConfigData.DocumentAddSection` | src/github.com/robfig/config/section.go:24-41 | a new section comes last, empty, and changes nothing else |
| `Config.Config.AddOption` | src/github.com/robfig/config/option.go:26-39 | the new state, whether it was new, and the invariant |
| `Config.Config.RemoveOption` | src/github.com/robfig/config/option.go:44-53 | the new state, whether it was there, and the invariant |
| `Config.Config.AddSection` | src/github.com/robfig/config/section.go:24-41 | the new state, whether it was new, and the invariant |
| `Config.Config.RemoveSection` | src/github.com/robfig/config/section.go:45-62 | the new state, whether it was removed, and the invariant |
| `Config.Config.Sections` | src/github.com/robfig/config/section.go:74-88 | the sections in order, exactly as many as the slice has room for |
| `Config.Config.Write` | src/github.com/robfig/config/write.go:42-90 | the header, then every section and option in order, each once; no option is left afterwards |
| `Config.Config.Read` | src/github.com/robfig/config/read.go:58-110 | equals the line-by-line reading of the text up to its last newline, with its error |
| `ConfigRoundTrip.RoundTrip` | src/github.com/robfig/config/write.go:54-87 | for names that fit on their lines and values of one or more lines, each of which is read back, the written text is read into a new Config as the same sections, options and values in the same order |
| `Config.WriteThenRead` | src/github.com/robfig/config/read.go:58-110 | the same with a header of any number of lines |
| `ConfigText.OptionReads` | src/github.com/robfig/config/read.go:87-97 | a clean option line gives back its option and value |
| `ConfigText.OptionReadsIff` | src/github.com/robfig/config/read.go:68-97 | an option and a value on one line are read back from it if and only if they are clean |
| `ConfigText.MoreReadsIff` | src/github.com/robfig/config/read.go:98-102 | a further line of a value is read back if and only if it is clean |
| `ConfigLines.StripsFirstComment` | src/github.com/robfig/config/config.go:143-151 | everything from the first comment on, a space or tab and then a semicolon or number sign, is stripped, and nothing else |
| `ConfigLines.TrimsOnlySpace` | src/github.com/robfig/config/read.go:68-97 | trimming takes white space off both ends, all of it and nothing else |
| `ConfigLines.LinesAre` | src/github.com/robfig/config/read.go:71-92 | which lines are comments, headers and options |
| `ConfigLines.PartsAre` | src/github.com/robfig/config/read.go:89-97 | an option ends at the first equals sign or colon, and its value is the rest, stripped and trimmed |
| `ConfigLines.HeaderIs` | src/github.com/robfig/config/read.go:76-79 | a section is what stands between the brackets, trimmed |
| `ConfigRoundTrip.MoreLinesRead` | src/github.com/robfig/config/read.go:98-102 | the further lines of a value are read one after the other onto it |
| `Config.HeaderIsComment` | src/github.com/robfig/config/write.go:43-52 | a header is read as comments only |

## Left out

- Encode: requires a label of fewer than 2^31 - 1 code points, which its int32 counters need; for labels of more than 3855 it says how many deltas are written, not which.
- Decode: requires an input shorter than 2^31 - 1, as Go's `int32(len(output))` does; texts are sequences of code points, so the rejection of invalid UTF-8 is not modelled.
- PathTree nodes are values: `Add` returns a new trie, and sharing of nodes and maps in the heap is not captured. The slice of expansions is a value in `PathTree` and a slice of a shared array in `PathSlices`, whose condition for right expansions is sufficient, with a failing run for each half of it.
- Tokenizer: `SetMaxBuf` as a call, and the calls of `TagName` and `TagAttr` one by one; `TokenValues` has what `Token` returns for tokens that are no raw text.
- The tree-construction modes of `html/parse.go`, `html/render.go` and `nodeStack`, which would add either a very large model or easy members.
- The contents of the entity tables.
- NodeList: `reparentChildren` with the same node twice and children would not terminate, and is excluded by a precondition.
- Fairness of LISTEN/NOTIFY: steps that are possible are not forced to happen.
- Listener: the wait of `Listen` for a reconnection, the event callback and the intervals between attempts; names longer than the server's limit.
- Context: `Value`, and a timer that is set after its ctx was cancelled, which only wastes the timer.
- GorpVersions: versions are unbounded integers, so the wrap after 2^63 - 1 updates of one row is not modelled; clients do not set the version field of a struct by hand; a transaction that commits is taken as its statements, which row locks allow.
- GorpBind: type converters, hooks, schema and table names, and the dialects' quoting and suffixes; a statement is its clauses. `ColumnMap.Rename` and `SetTransient`, which change a column without dropping cached plans, and so have to come before the first statement.
- SeatBooking: keys do not expire, and a connection whose EXEC failed is not used again.
- CopyIn: numbers, booleans and times are given by the texts that Go's library formats them to, which have no characters that need escaping.
- ConnInfo: parsing of the URL itself, and how the sort arranges the parts; strings are sequences of characters, whose order is that of their bytes.
- Uuid: the random tail, and JSON.
- Config: variable substitution, typed getters and `Merge`; a read error in the middle of a file.
- revel controllers, templates, binder and filters, fsnotify, socket options, the seed, load and availability endpoints: I/O, reflection or plumbing.
