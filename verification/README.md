# Gateway model: matcher, guard link, cipher pipeline

This project models four parts of a cross-domain gateway and proves what they promise one another.

- `matcher/` models the keyword matcher: patterns become a pointer trie, a breadth-first pass gives every node its
  fail link and output, and a depth-first pass packs the trie into the base/check/fail/output arrays with a free-slot
  allocator that grows by blocks. `Allocation`, `Placing`, `Tour`, `Running` and `OncePass` specify that pass, `Counting`
  to `ManyWords` say for which patterns it goes right. `Searching` and `DoubleArray.DoubleArrayTrie.Search` run the
  packed machine over bytes and merge the hits.
- `filter/` models what is done with the hits: overwriting them, cutting a document's XML into spans, and running the
  tasks of those spans in any order beside the splitter.
- `guard/` models the selective-repeat link between the two guards: frames and their CRC-32, the receiver, the sender,
  congestion control, and one transfer as a step system over a network that loses, repeats and reorders frames.
- `crypto/` models ARIA (RFC 5794), CBC (section 6.2 of NIST SP 800-38A), the padding of section 6.3 of RFC 5652, and
  the module pipeline built on them. `wire/` models the three byte formats a payload passes through.

## Main results

1. **Search is exact.** For every pattern set whose trie was packed (see 2) and every well-formed text, a search
   returns, in the order of their ends, exactly these matches: the longest pattern occurrence at every end, unless the
   longest one at the next end starts no later (`Searching.Reported`). Their bytes are exactly the bytes of pattern
   occurrences, up to letter case when cases are folded (`DoubleArray.DoubleArrayTrie.Search`); on other bytes the
   result is that of the characters read. The chain behind it: code strings and byte strings agree
   (`Utf8.CodesToBytes`, `Utf8.BytesToCodes`); fail links are longest proper suffixes and outputs longest patterns
   (`FailLinks.SetFailLinks`); packing keeps the trie (`Running.PackedAtEnd`); every step of the packed machine is a
   step of the automaton (`DoubleArray.DoubleArrayTrie.Read`).
2. **When packing works.** The code takes a base of 0 to mean that a node's children are not placed yet
   (`CDSGateway/include/DoubleArrayTrie.hpp:293`), but 0 is also a base the allocator hands out. The model keeps the
   code as it is, including the second placement with its doubled child list and the read past an empty vector that
   it can lead to: `Running.Finish` is that run as a function of the trie, and the class computes it. `OncePass.Once`
   is the condition: it follows the pass the code means to make, every node with children placed once in preorder, on
   the trie and the last slot of the chain (605 in a new matcher), and asks that no node with two or more children is
   given base 0. A build packs the trie if and only if that holds, and then its arrays are those of that pass
   (`OncePass.OnceIsPacked`, `DoubleArray.DoubleArrayTrie.Build`). On the patterns alone:
   - if they part only after one common beginning of k characters, k + 2 < 510, the build is right if and only if the
     least code that follows it is not k + 2 (`ZeroBase.OnlyForkDecides`). Two patterns and any set of single
     characters are instances; so 95 times the letter z followed by `a` and by `b` fails, and any other number of times
     below 508 does not (`BuildExamples.TwoWords`). With further forks behind, that code still fails
     (`ZeroBase.FirstForkFails`), and without any fork nothing can (`ZeroBase.NestedOnce`);
   - for every trie, counting gives two numbers between which the slot of a node's least child lies as long as there is
     room in the front of the first block (`CountedPass.EntriesBounded`). The lower counts the nodes placed before; the
     upper adds their other children nearby and the pairs of code distances by which one list of codes can block
     another (`Counting.Highest`). A fork whose least code lies outside is safe (`CountedPass.SparedOnce`), and one whose
     bounds meet at its least code fails (`CountedPass.StruckTwice`). Hangul syllables have codes from 512 on, above every
     such bound (`ZeroBase.HighCodesOnce`); and w patterns of C characters altogether that part only at codes above
     2 + C + (w - 1)² / 2, a number below 510, are always packed right (`ManyWords.FewWordsOnce`; words of Hangul
     syllables: `BuildExamples.HangulWords`).

   What a search does after a failed build is shown where it happens: with the patterns U+0002 and U+0003 the character
   U+4E2D is reported as a hit, and a character with code 3 after it is never finished
   (`FalseHit.FalseHitThenEndless`, `BuildExamples.TwoControlCharacters`).
3. **The allocator terminates** with slots that are empty and inside the arrays: growing brings the first block free of
   used slots within the chain, and there everything fits (`Allocation.FindBase`,
   `DoubleArray.DoubleArrayTrie.GetProperBase`).
4. **Censoring is enough.** If no pattern contains `*`, the censored text is well formed, has the same length, contains
   no pattern, and a second pass finds nothing (`Censoring.OnePassIsEnough`, `Censoring.CensorTwice`).
5. **Every text is handed out, and tasks commute.** The spans of a document hold the bytes between `<w:t>` and
   `</w:t>`, `<t>` and `</t>` or `<hp:t>` and `</hp:t>`, in the last case without nested tags, and no other byte; each
   run of such bytes is one span (`Spans.SplitDocument`). However the splitter and the tasks take turns, the document
   ends up the same: each span censored by itself, everything else untouched (`Spans.AnyOrder`, `Spans.SameResult`). In
   a well-formed document every span is well-formed text (`Spans.SpanWellFormed`), so what a task promises for such text
   is enough for no pattern to be left in its span (`Spans.NoPatternLeft`).
6. **Transfers deliver.** If a transfer succeeds and no START copy arrived after an acknowledged DATA frame and before
   the message was returned, the receiver has returned exactly the message, and once if no START copy arrived
   afterwards (`TransferProperties.Delivered`); without the first condition it can fail
   (`TransferProperties.LateStartLoses`). The windows agree, nothing is stuck, and a loss-free continuation completes.
   The receiver alone repeats selectively: after START, the packets of a window and END in any order and number return
   the message at the END or the last missing packet (`Receiver.InAnyOrder`, `Receiver.OneWindow`).
7. **Deciphering undoes enciphering** for every legal key, block, message and initialisation vector. The cipher gives
   the known answers of RFC 5794 for its three key lengths (`AriaAnswers.Answer16`, `Answer24`, `Answer32`), and the
   ciphertext of a message is determined block by block (`Cbc.EncryptIsExact`). Every engine of modules that reverse
   themselves reverses itself; from the gateway's buffer to the receiving application, endpoints and
   payload come back (`EndToEnd.GatewayToApplication`).

Objects whose methods update fields are classes here (`Trie`, `DoubleArrayTrie`, `GuardL2Receiver`, `GuardL2Sender`,
`ARIAAlgorithm`, `ProtocolEngine`), in-place code works on arrays, and each method is proved against a function or a
predicate about which the lemmas then speak.

## Model

| member | source | states |
|---|---|---|
| Utf8.CodesAgree | CDSGateway/src/DoubleArrayTrie.cpp:154-178 | two well-formed characters have the same code exactly if their bytes agree up to the folded case |
| Utf8.CodeByBytes | CDSGateway/src/DoubleArrayTrie.cpp:154-178 | the code of every well-formed character, by its bytes |
| Utf8.CodesToBytes | CDSGateway/src/DoubleArrayTrie.cpp:18-64 | where a pattern's codes occur in a text's codes, its bytes occur, from character boundary to character boundary |
| Utf8.BytesToCodes | CDSGateway/src/DoubleArrayTrie.cpp:18-64 | where a pattern's bytes occur in well-formed text, they start at a character and its codes occur there |
| Automaton.CandidateNext | CDSGateway/include/DoubleArrayTrie.hpp:253-256 | following a fail link skips no path that could be extended, and depth falls |
| Automaton.OutputOfPath | CDSGateway/include/DoubleArrayTrie.hpp:264 | the larger of a node's own size and its fail node's output is the longest pattern that is a suffix of its path |
| PatternTrie.ChildIffPath | CDSGateway/include/DoubleArrayTrie.hpp:222-229 | a node has a child for a code exactly if its path extended by the code is in the trie |
| PatternTrie.SizeOfCodes | CDSGateway/include/DoubleArrayTrie.hpp:234 | the encoded size of a pattern's path is the pattern's length in bytes |
| PatternTrie.Trie.Child | CDSGateway/include/DoubleArrayTrie.hpp:222-229 | the child is found or made; no other path appears and no size changes |
| PatternTrie.Trie.Insert | CDSGateway/include/DoubleArrayTrie.hpp:182-235 | the trie holds every pattern with its size, and nothing but prefixes of patterns |
| PatternTrie.ReadCode | CDSGateway/include/DoubleArrayTrie.hpp:186-216 | reads the code of the next character and leaves the rest of the text's codes |
| FailLinks.Chase | CDSGateway/include/DoubleArrayTrie.hpp:251-261 | the chased node's path is the longest proper suffix of the child's path that is a path |
| FailLinks.FrontierCovers | CDSGateway/include/DoubleArrayTrie.hpp:237-268 | in breadth-first order, every node no deeper than the current one has been met |
| FailLinks.SetFailLinks | CDSGateway/include/DoubleArrayTrie.hpp:237-268 | every node gets the longest proper suffix that is a path as fail link and the longest suffix pattern as output |
| Allocation.FreshFits | CDSGateway/src/DoubleArrayTrie.cpp:236-262 | at the first block above all used slots every set of codes fits |
| Allocation.EnlargedSound | CDSGateway/src/DoubleArrayTrie.cpp:292-319 | growing keeps every empty slot queued and every counter at 0 above the highest used block |
| Allocation.MissBelowTop | CDSGateway/src/DoubleArrayTrie.cpp:247-262 | a base can only fail because of a used slot at or above the candidate's block |
| Allocation.TryFrontOk | CDSGateway/src/DoubleArrayTrie.cpp:238-268 | the front of the chain is taken exactly if it is empty, its block sparse and the codes fit; every empty slot stays queued |
| Allocation.ScanOk | CDSGateway/src/DoubleArrayTrie.cpp:236-269 | a round of the chain without a find has not met the fresh slot |
| Allocation.HuntOk | CDSGateway/src/DoubleArrayTrie.cpp:215-269 | dense queue and chain together: a find fits, and a miss means that the chain ends below the fresh slot |
| Allocation.FindBase | CDSGateway/src/DoubleArrayTrie.cpp:215-273 | the search ends with a base whose slots are all empty and inside the arrays, and nothing placed is disturbed |
| DoubleArray.DoubleArrayTrie.constructor | CDSGateway/include/DoubleArrayTrie.hpp:149-157 | a matcher for the patterns exactly if the pass that places every node once gives no branching node base 0, for the chain of a new matcher |
| DoubleArray.DoubleArrayTrie.ReserveTrie | CDSGateway/src/DoubleArrayTrie.cpp:292-319 | the arrays, queues and counters after growing, in full |
| DoubleArray.DoubleArrayTrie.EraseAll | CDSGateway/src/DoubleArrayTrie.cpp:275-290 | every slot is empty again and chained from 1 on |
| DoubleArray.DoubleArrayTrie.TryEntry | CDSGateway/src/DoubleArrayTrie.cpp:238-268 | does what the specification does with the front of the chain: take, drop, set aside or put back with a charge |
| DoubleArray.DoubleArrayTrie.TakeDense | CDSGateway/src/DoubleArrayTrie.cpp:222-234 | a single code gets the first empty slot of the dense queue, if there is one |
| DoubleArray.DoubleArrayTrie.ScanChain | CDSGateway/src/DoubleArrayTrie.cpp:236-269 | one round of the chain as specified, whatever it finds |
| DoubleArray.DoubleArrayTrie.GetProperBase | CDSGateway/src/DoubleArrayTrie.cpp:215-273 | terminates with the base, the slots and the chain of the specification, and arrays that have only grown |
| DoubleArray.DoubleArrayTrie.PlaceChildren | CDSGateway/include/DoubleArrayTrie.hpp:314-322 | check, output, counters and slots after placing the children one by one |
| DoubleArray.DoubleArrayTrie.PlaceTop | CDSGateway/include/DoubleArrayTrie.hpp:293-323 | the children of the node on top are ordered, given a base and placed as specified, a second time too |
| DoubleArray.DoubleArrayTrie.Advance | CDSGateway/include/DoubleArrayTrie.hpp:290-331 | one turn of the loop is one step of the specified run, or the undefined read |
| DoubleArray.DoubleArrayTrie.Place | CDSGateway/include/DoubleArrayTrie.hpp:270-337 | the loop ends with the arrays and slots of the specified run from the empty arrays |
| Placing.PlacedAll | CDSGateway/include/DoubleArrayTrie.hpp:314-322 | base, check, output and slots after placing, slot by slot and node by node, and what stays unchanged |
| Placing.SlotsPlace | CDSGateway/include/DoubleArrayTrie.hpp:293-323 | placing fresh children keeps slots distinct, checks right and every used slot owned |
| Placing.StaleBorn | CDSGateway/include/DoubleArrayTrie.hpp:293-323 | a second placement leaves a used slot that belongs to no node |
| Tour.OrderChildren | CDSGateway/include/DoubleArrayTrie.hpp:298-309 | the children's codes, added to those that are there, in ascending order |
| Tour.TourPush | CDSGateway/include/DoubleArrayTrie.hpp:325-330 | the next child goes onto the stack for the first time, and every visit is accounted for |
| Tour.TourEnd | CDSGateway/include/DoubleArrayTrie.hpp:284-337 | when the stack is empty every node has been visited and its children are placed |
| Tour.LeftPush | CDSGateway/include/DoubleArrayTrie.hpp:284-337 | every push lowers the bound on steps to come, so the pass ends even when it places twice |
| Running.NextOk | CDSGateway/include/DoubleArrayTrie.hpp:284-337 | every step, first or repeated placement, push or pop, keeps the arrays sound and brings the end nearer |
| Running.SecondPlacing | CDSGateway/include/DoubleArrayTrie.hpp:293 | a placed node with base 0 is placed again, which leaves a stale slot |
| Running.StaleFinish | CDSGateway/include/DoubleArrayTrie.hpp:284-337 | a stale slot stays to the end of the run |
| Running.PackedAtEnd | CDSGateway/include/DoubleArrayTrie.hpp:284-337 | at the end of a run without a second placement moves are exactly the trie's edges, but for the root's check of itself |
| OncePass.Decide | CDSGateway/include/DoubleArrayTrie.hpp:284-337 | from any point up to which nothing was placed twice: the run ends with a packing exactly if the pass gives no branching node base 0 |
| OncePass.OnceIsPacked | CDSGateway/include/DoubleArrayTrie.hpp:270-337 | the run packs the trie if and only if the condition holds, and its arrays are then those of the pass that places once |
| Counting.FewUnfit | CDSGateway/src/DoubleArrayTrie.cpp:236-262 | slots are passed over only for slots in use or for clashes of code distances, so there are no more of them than that |
| Counting.NextEntry | CDSGateway/src/DoubleArrayTrie.cpp:236-268 | in the front of the first block the search takes the first slot that fits, and it lies between the two counted bounds |
| CountedPass.PreorderRoute | CDSGateway/include/DoubleArrayTrie.hpp:284-337 | the pass comes to every node with children after its parent |
| CountedPass.EntriesBounded | CDSGateway/include/DoubleArrayTrie.hpp:284-337 | as long as there is room, the slot of a node's least child lies between its counted bounds |
| CountedPass.SparedOnce | CDSGateway/include/DoubleArrayTrie.hpp:293 | if the least code of every fork lies outside the bounds, every node is placed once |
| CountedPass.StruckTwice | CDSGateway/include/DoubleArrayTrie.hpp:293 | if the bounds of a fork meet at its least code, it is placed twice |
| CountedPass.OnlyForkOnce | CDSGateway/include/DoubleArrayTrie.hpp:293 | with one fork after i nodes, placing once means that its least code is not i + 2 |
| LinkedMachine.BuiltMachine | CDSGateway/include/DoubleArrayTrie.hpp:161-366 | what a build leaves is a machine for the patterns exactly if every node was placed once, which is exactly if the trie is packed |
| DoubleArray.DoubleArrayTrie.CopyFails | CDSGateway/include/DoubleArrayTrie.hpp:342-363 | every node's fail slot is the slot of its fail node, and no other slot has a fail link |
| DoubleArray.DoubleArrayTrie.Build | CDSGateway/include/DoubleArrayTrie.hpp:161-366 | the whole build leaves the arrays of the specified run: a matcher for the patterns if and only if that run places every node once |
| DoubleArray.DoubleArrayTrie.Rebuild | CDSGateway/include/DoubleArrayTrie.hpp:370-375 | the same for new patterns in the same arrays, whatever their size |
| ZeroBase.ChildrenFollow | CDSGateway/include/DoubleArrayTrie.hpp:182-235 | the codes of a node's children are those that follow its path in patterns |
| ZeroBase.NestedOnce | CDSGateway/include/DoubleArrayTrie.hpp:293 | patterns that begin with one another never branch, so they are always packed right |
| ZeroBase.FirstForkFails | CDSGateway/include/DoubleArrayTrie.hpp:293 | if the least code after the common beginning of all patterns is two more than its length, the build fails |
| ZeroBase.OnlyForkDecides | CDSGateway/include/DoubleArrayTrie.hpp:293 | if the patterns part nowhere else, the build is right if and only if that is not so |
| ZeroBase.TwoPatternsDecide | CDSGateway/include/DoubleArrayTrie.hpp:293 | two patterns that part after k characters are packed right if and only if the lesser code there is not k + 2 |
| ZeroBase.SingleCharactersDecide | CDSGateway/include/DoubleArrayTrie.hpp:293 | two or more single characters are packed right if and only if their least code is not 2 |
| ZeroBase.HighCodesOnce | CDSGateway/include/DoubleArrayTrie.hpp:293 | patterns with codes above the limit, Hangul syllables, are packed right as long as there is room for their forks |
| ManyWords.HighestFew | CDSGateway/include/DoubleArrayTrie.hpp:284-337 | no node's bound exceeds what the number of patterns and of their characters allows |
| ManyWords.FewWordsOnce | CDSGateway/include/DoubleArrayTrie.hpp:293 | a list of patterns that is not too long and parts only at codes above that number is packed right |
| FalseHit.RunSecond | CDSGateway/include/DoubleArrayTrie.hpp:284-337 | the whole pass for the patterns U+0002 and U+0003: the root ends with base 2 and the slots 2 and 3 are stale |
| FalseHit.FalseHitThenEndless | CDSGateway/src/DoubleArrayTrie.cpp:55-71 | after that build code 0 leads from the root to a stale slot with an output, and reading code 3 there never ends |
| BuildExamples.TwoWords | CDSGateway/include/DoubleArrayTrie.hpp:149-157 | n letters and then a or b: a matcher exactly if n is not 95 |
| BuildExamples.HangulWords | CDSGateway/include/DoubleArrayTrie.hpp:149-157 | words of Hangul syllables, not too many and not too long, always make a matcher |
| BuildExamples.TwoControlCharacters | CDSGateway/include/DoubleArrayTrie.hpp:149-157 | a build that makes no matcher, a text in which no pattern occurs, and the hit and the endless loop on it |
| Searching.TryHit | CDSGateway/src/DoubleArrayTrie.cpp:64-67 | a move of the packed machine leads to the automaton's state after one more code; the root's own move stays at the root |
| Searching.TryNext | CDSGateway/src/DoubleArrayTrie.cpp:58-62 | without a move the fail slot is the next to try, and depth falls |
| Searching.OutputAtState | CDSGateway/src/DoubleArrayTrie.cpp:69-71 | the output at the current slot is the longest pattern that ends here |
| Searching.AddHit | CDSGateway/src/DoubleArrayTrie.cpp:79-101 | a hit takes the place of the last one exactly if it starts no later, and is appended otherwise; either way it adds exactly its bytes, and ends keep rising |
| Searching.MergedIs | CDSGateway/src/DoubleArrayTrie.cpp:79-101 | a hit is in the result exactly if the next hit starts after it |
| Searching.MergedReports | CDSGateway/src/DoubleArrayTrie.cpp:18-108 | on well-formed text the result holds the longest pattern occurrence at every end, unless the longest one at the next end starts no later, and nothing else |
| Searching.HitsCover | CDSGateway/src/DoubleArrayTrie.cpp:18-108 | the longest hits at all characters cover exactly the occurrences of the patterns |
| DoubleArray.DoubleArrayTrie.TakeTurn | CDSGateway/src/DoubleArrayTrie.cpp:55-67 | one turn of the reading loop on any arrays: a move, staying at the root, or the fail link |
| DoubleArray.DoubleArrayTrie.Read | CDSGateway/src/DoubleArrayTrie.cpp:55-67 | from the slot of one state to the slot of the next |
| DoubleArray.DoubleArrayTrie.Search | CDSGateway/src/DoubleArrayTrie.cpp:18-108 | on any bytes the result lies inside them, in the order of ends, and holds the hits of the characters read; on well-formed text it holds exactly the reported occurrences and covers exactly the pattern occurrences |
| Censoring.Censor | CDSGateway/include/FilteringInterface.hpp:393-403 | exactly the bytes of the matches are overwritten, in place, with byte 42 |
| Censoring.NoneLeft | CDSGateway/include/FilteringInterface.hpp:393-403 | no pattern without a star occurs in the censored text, whatever else was censored |
| Censoring.CoveredWhole | CDSGateway/src/DoubleArrayTrie.cpp:69-101 | what the patterns cover are whole characters |
| Censoring.CensoredWellFormed | CDSGateway/include/FilteringInterface.hpp:393-403 | censoring whole characters leaves well-formed text |
| Censoring.OnePassIsEnough | CDSGateway/include/FilteringInterface.hpp:393-403 | well formed, same length, no pattern left, and a second pass changes nothing |
| Censoring.CensorTwice | CDSGateway/include/FilteringInterface.hpp:393-403 | searching, censoring and searching again finds nothing; exactly the covered bytes are stars |
| Censoring.CharToByteMap | CDSGateway/include/FilteringInterface.hpp:260-273 | the byte position of every character, and the length after the last |
| Censoring.CharsToBytes | CDSGateway/include/FilteringInterface.hpp:275-299 | hits in characters become exactly the bytes of those characters; hits outside the text are dropped |
| Censoring.MatchedByRule | CDSGateway/include/FilteringInterface.hpp:220-245 | the bytes matched are those of the regular expressions and of the patterns |
| Censoring.CensorTask | CDSGateway/src/FilteringInterface.cpp:81-177 | a task censors its part of the buffer at everything that matched, and nothing if nothing did |
| Spans.EndAfterStart | CDSGateway/src/FilteringInterface.cpp:279-292 | an end tag is never found inside the start tag, so a span's end is not before its start |
| Spans.AdvanceForward | CDSGateway/src/FilteringInterface.cpp:279-332 | the splitter never goes back, hands out spans behind it, and ends |
| Spans.AdvanceSame | CDSGateway/src/FilteringInterface.cpp:279-332 | what the splitter does depends only on the document ahead of it |
| Spans.SpansInside | CDSGateway/src/FilteringInterface.cpp:289-329 | every span lies in the text of an element, with no nested tag starting in it |
| Spans.SpansApart | CDSGateway/src/FilteringInterface.cpp:284-292 | spans are in order, and something lies between any two |
| Spans.OutsideTags | CDSGateway/src/FilteringInterface.cpp:300-322 | no byte of a nested tag is in a span |
| Spans.SplitDocument | CDSGateway/src/FilteringInterface.cpp:273-332 | the scanning loops hand out every byte between the literal tags of the elements, found from left to right, but for nested tags, and no other byte; spans are apart |
| Spans.SpansAreExact | CDSGateway/src/FilteringInterface.cpp:273-332 | a byte is in a span exactly if it is text of an element |
| Spans.SplitText | CDSGateway/src/FilteringInterface.cpp:294-323 | the inner loop of a Hwpx text hands out exactly the specified spans |
| Spans.RunKeeps | CDSGateway/src/FilteringInterface.cpp:279-332 | in every interleaving each span is as it was or censored by itself, and the rest is untouched |
| Spans.AnyOrder | CDSGateway/src/FilteringInterface.cpp:81-177 | the final document, byte by byte, whatever the order of the tasks |
| Spans.SameResult | CDSGateway/src/FilteringInterface.cpp:81-177 | two complete runs end with the same document |
| Spans.SpanWellFormed | CDSGateway/src/FilteringInterface.cpp:279-332 | the spans of a well-formed document are well-formed text |
| Spans.NoPatternInSpan | CDSGateway/src/FilteringInterface.cpp:81-177 | a task that catches what the patterns cover in its own span leaves none of them there |
| Spans.NoPatternLeft | CDSGateway/src/FilteringInterface.cpp:81-177 | in a well-formed document tasks that keep their promise for well-formed text leave no pattern in their spans |
| Receiver.GuardL2Receiver.SendAck | CDSGuardSub/src/GuardL2.cpp:651-675 | the acknowledgement's fields and advertised window |
| Receiver.GuardL2Receiver.TakeIn | CDSGuardSub/src/GuardL2.cpp:792-811 | a packet is appended with all that follow it, or buffered once |
| Receiver.GuardL2Receiver.Handle | CDSGuardSub/src/GuardL2.cpp:764-852 | one turn of the receive loop: next state, acknowledgements, returned value |
| Receiver.ReactKeeps | CDSGuardSub/src/GuardL2.cpp:764-852 | data stays the right prefix, buffered packets right and inside the window, and only the whole message is returned |
| Receiver.ReceiverSafety | CDSGuardSub/src/GuardL2.cpp:687-855 | the same over every run, with restarts and timeouts |
| Receiver.TakenKept | CDSGuardSub/src/GuardL2.cpp:764-818 | only a START of its session makes the receiver forget a packet |
| Receiver.AcknowledgedIsTaken | CDSGuardSub/src/GuardL2.cpp:788-816 | an acknowledged DATA frame has been taken in |
| Receiver.DataIsHeld | CDSGuardSub/src/GuardL2.cpp:785-818 | every DATA frame of the session below base + 512 gets one acknowledgement of its number, with the room left, and is then below base or in the buffer |
| Receiver.DataTooFarAhead | CDSGuardSub/src/GuardL2.cpp:785-818 | a DATA frame beyond the window changes nothing and is not acknowledged |
| Receiver.DrainExact | CDSGuardSub/src/GuardL2.cpp:798-806 | exactly the packets that follow without a gap leave the buffer |
| Receiver.InAnyOrder | CDSGuardSub/src/GuardL2.cpp:764-852 | after START, packets in any order and number, each in the window when it comes, and END at any time: the receiver stands at the first packet missing with the others buffered, or has returned the message, once |
| Receiver.OneWindow | CDSGuardSub/src/GuardL2.cpp:764-852 | such a run returns the message, once, exactly if every packet and END are in it |
| Chunks.ByteOfPacket | CDSGuardSub/src/GuardL2.cpp:447-476 | byte i of a message is byte i mod 1400 of packet i / 1400 + 1; no packet is empty and all but the last are full |
| Receiver.EndReturns | CDSGuardSub/src/GuardL2.cpp:820-851 | END after every packet returns the message |
| Receiver.AdvertisedWindow | CDSGuardSub/src/GuardL2.cpp:668-671 | every advertised window is between 1 and 512 |
| Congestion.SoundKept | CDSGuardSub/src/GuardL2.cpp:275-320 | cwnd >= 1, ssthresh >= 2, and the counter stays below cwnd |
| Congestion.AvoidanceIsExact | CDSGuardSub/src/GuardL2.cpp:296-307 | from w to w + k takes exactly w + (w+1) + ... + (w+k-1) first acknowledgements |
| Congestion.SlowStartIsExact | CDSGuardSub/src/GuardL2.cpp:290-295 | in slow start each first acknowledgement widens the window by one |
| Congestion.Recovery | CDSGuardSub/src/GuardL2.cpp:275-320 | after a loss at window w, the window is 1, reaches max(2, w / 2) after max(2, w / 2) - 1 first acknowledgements and no fewer, and grows from there as congestion avoidance does |
| Congestion.FreshGrowth | CDSGuardSub/src/GuardL2.cpp:275-308 | a new transfer climbs from 1 to 64 in the same way |
| Sender.SendAllIsExact | CDSGuardSub/src/GuardL2.cpp:447-496 | the frames from next up to the smaller window or the last packet go out, each once and in order, and no other entry changes |
| Sender.OverdueIsExact | CDSGuardSub/src/GuardL2.cpp:528-552 | the frames resent are those in the window that wait and whose time is up, oldest first |
| Sender.SlideAllIsExact | CDSGuardSub/src/GuardL2.cpp:554-559 | sliding drops the acknowledged frames at the front and stops at the first that is not acknowledged |
| Sender.AdvertisedIsObeyed | CDSGuardSub/src/GuardL2.cpp:445-476 | nothing is sent beyond the window last advertised |
| Sender.GuardL2Sender.constructor | CDSGuardSub/src/GuardL2.cpp:386-414 | the state in which START is first sent |
| Sender.GuardL2Sender.AckListener | CDSGuardSub/src/GuardL2.cpp:122-143 | only the first acknowledgement of a buffered frame counts |
| Sender.GuardL2Sender.OnAckReceived | CDSGuardSub/src/GuardL2.cpp:275-308 | window and congestion state after a first acknowledgement |
| Sender.GuardL2Sender.OnPacketLoss | CDSGuardSub/src/GuardL2.cpp:310-320 | the congestion state after a timeout |
| Sender.GuardL2Sender.Fill | CDSGuardSub/src/GuardL2.cpp:447-496 | exactly the frames the effective window admits are filed and sent, in order |
| Sender.GuardL2Sender.Retransmit | CDSGuardSub/src/GuardL2.cpp:528-552 | exactly the overdue frames are resent, and one loss is recorded |
| Sender.GuardL2Sender.SlideWindow | CDSGuardSub/src/GuardL2.cpp:554-559 | the window slides over every acknowledged frame at its front |
| Transfer.StepKeeps | CDSGuardSub/src/GuardL2.cpp:386-593 | every step of sender, listener, network and receiver keeps the system invariant |
| TransferProperties.RunKeeps | CDSGuardSub/src/GuardL2.cpp:386-593 | the invariant holds in every reachable state |
| TransferProperties.Delivered | CDSGuardSub/src/GuardL2.cpp:562-592 | success without a late START means the session's message has been returned, once unless START came again afterwards; every value returned is its session's message |
| TransferProperties.WindowsAgree | CDSGuardSub/src/GuardL2.cpp:445-476 | the sender is never ahead, no DATA frame lies beyond the receiver's window, and the window the sender last read is never 0 |
| TransferProperties.CreditedOnce | CDSGuardSub/src/GuardL2.cpp:127-143 | no packet is credited to the congestion window twice |
| TransferProperties.NotStuck | CDSGuardSub/src/GuardL2.cpp:445-560 | the oldest packet left can slide, be sent or be resent |
| TransferProperties.MeasureFalls | CDSGuardSub/src/GuardL2.cpp:445-560 | each send, slide and first acknowledgement lowers the lexicographic measure |
| TransferProperties.CanComplete | CDSGuardSub/src/GuardL2.cpp:386-593 | a continuation without loss ends in success with the message returned, also when only the end is still to be acknowledged |
| TransferProperties.LateStartLoses | CDSGuardSub/src/GuardL2.cpp:766-781 | a concrete run in which a late START makes a successful transfer lose its message |
| Crc32.GenerateCrc32Table | CDSGuardSub/src/GuardL2.cpp:41-56 | each table entry is eight steps of the bit-serial register |
| Crc32.ComputeCrc32 | CDSGuardSub/src/GuardL2.cpp:58-64 | the table-driven CRC is the bit-serial one |
| Crc32.TableStep | CDSGuardSub/src/GuardL2.cpp:58-64 | one look-up does the work of eight steps |
| Crc32.CheckValue | CDSGuardSub/src/GuardL2.cpp:58-64 | the CRC of the digits 1 to 9 is 0xCBF43926 |
| Crc32.OneByteIsSeen | CDSGuardSub/src/GuardL2.cpp:58-64 | strings that differ in one byte have different CRCs |
| FrameCodec.BuildFrame | CDSGuardSub/src/GuardL2.cpp:217-250 | the bytes of a frame |
| FrameCodec.FrameLayout | CDSGuardSub/src/GuardL2.cpp:217-250 | where every field of a frame lies, and what its CRC covers |
| FrameCodec.ToBytesIsExact | CDSGuardSub/src/GuardL2.cpp:217-250 | numbers are big-endian |
| FrameCodec.CheckFrame | CDSGuardSub/src/GuardL2.cpp:725-762 | the frame of accepted bytes, and nothing for the rest |
| FrameCodec.ParseBuild | CDSGuardSub/src/GuardL2.cpp:735-762 | a built frame, padded or not, is accepted and yields its fields |
| FrameCodec.OneByteIsRejected | CDSGuardSub/src/GuardL2.cpp:745-755 | one changed header or payload byte, other than the length, is always noticed |
| AriaTables.TablesInverse | PacketProcessor/src/encryption/ARIAReference.cpp:9-82 | tables two apart undo each other |
| Aria.DiffuseExpanded | PacketProcessor/src/encryption/ARIAReference.cpp:92-116 | the sixteen assignments compute the matrix form of the diffusion layer |
| Aria.DiffuseInvolution | PacketProcessor/src/encryption/ARIAReference.cpp:92-116 | the diffusion layer is its own inverse |
| Aria.SubstituteInverse | PacketProcessor/src/encryption/ARIAReference.cpp:208-214 | the odd and even substitution layers undo each other |
| AriaCipher.RoundsMirror | PacketProcessor/src/encryption/ARIAReference.cpp:202-217 | deciphering rounds retrace enciphering rounds through the diffusion layer |
| AriaCipher.AriaRoundTrip | PacketProcessor/src/encryption/ARIAReference.cpp:182-217 | the cipher under the decryption keys undoes the cipher under the encryption keys |
| AriaCipher.RotateRightIsExact | PacketProcessor/src/encryption/ARIAReference.cpp:119-128 | the byte-wise rotation is the 128-bit rotation, bit by bit |
| AriaAnswers.Answer16 | PacketProcessor/src/encryption/ARIAReference.cpp:85-217 | the ciphertext of block 00 11 .. ff under key 00 01 .. 0f, through literal key words and round states |
| AriaAnswers.Answer24 | PacketProcessor/src/encryption/ARIAReference.cpp:85-217 | the same for the 24-byte key |
| AriaAnswers.Answer32 | PacketProcessor/src/encryption/ARIAReference.cpp:85-217 | the same for the 32-byte key |
| AriaReference.DL | PacketProcessor/src/encryption/ARIAReference.cpp:92-116 | writes the diffused block when input and output are apart, and nothing else in any case |
| AriaReference.RotXOR | PacketProcessor/src/encryption/ARIAReference.cpp:119-128 | XORs the rotated source into the target |
| AriaReference.EncKeySetup | PacketProcessor/src/encryption/ARIAReference.cpp:132-178 | writes the round keys of section 2.2 of RFC 5794 |
| AriaReference.DecKeySetup | PacketProcessor/src/encryption/ARIAReference.cpp:182-198 | rearranges them in place, the middle key with aliased arguments included |
| AriaReference.Crypt | PacketProcessor/src/encryption/ARIAReference.cpp:202-217 | computes the cipher of a block |
| Cbc.PadIsExact | PacketProcessor/src/encryption/ARIAAlgorithm.cpp:17-29 | padding is 1 to 16 bytes up to a whole block, each giving their number |
| Cbc.UnpadPad | PacketProcessor/src/encryption/ARIAAlgorithm.cpp:17-56 | unpadding undoes padding |
| Cbc.PaddedIffPad | PacketProcessor/src/encryption/ARIAAlgorithm.cpp:31-56 | what unpadding accepts is exactly what padding produces |
| Cbc.Pkcs7Pad | PacketProcessor/src/encryption/ARIAAlgorithm.cpp:17-29 | computes the padded string |
| Cbc.Pkcs7Unpad | PacketProcessor/src/encryption/ARIAAlgorithm.cpp:31-56 | computes the unpadded string, or nothing for bad padding |
| Cbc.UnchainChain | PacketProcessor/src/encryption/ARIAAlgorithm.cpp:95-179 | unchaining undoes chaining |
| Cbc.EncryptIsExact | PacketProcessor/src/encryption/ARIAAlgorithm.cpp:69-120 | the ciphertext is the string that starts with the vector and whose every later block enciphers a padded block combined with the ciphertext block before it |
| Cbc.DecryptIsExact | PacketProcessor/src/encryption/ARIAAlgorithm.cpp:122-190 | what is unpadded is every deciphered block combined with the ciphertext block before it; short and ragged input gives nothing |
| Cbc.MessageRoundTrip | PacketProcessor/src/encryption/ARIAAlgorithm.cpp:69-190 | decryption returns the message for every legal key, vector and message |
| Cbc.ARIAAlgorithm.Encrypt | PacketProcessor/src/encryption/ARIAAlgorithm.cpp:69-120 | the block loop computes the ciphertext |
| Cbc.ARIAAlgorithm.Decrypt | PacketProcessor/src/encryption/ARIAAlgorithm.cpp:122-190 | the block loop computes the message, or nothing for bad input |
| Engine.ShiftProcess | PacketProcessor/src/protocol/ShiftModule.cpp:4-11 | shifts every byte modulo 256 |
| Engine.ShiftReversesItself | PacketProcessor/src/protocol/ShiftModule.cpp:4-20 | shifting back undoes shifting |
| Engine.PaddingReversesItself | PacketProcessor/src/protocol/PaddingModule.cpp:9-26 | removing the prefix undoes adding it |
| Engine.EncryptionReversesItself | PacketProcessor/src/protocol/EncryptionModule.cpp:11-21 | decrypting undoes encrypting, whatever the vector |
| Engine.EngineRoundTrip | PacketProcessor/src/protocol/ProtocolEngine.cpp:30-56 | an engine of modules that reverse themselves decrypts what it encrypts |
| Engine.ProtocolEngine.Encrypt | PacketProcessor/src/protocol/ProtocolEngine.cpp:30-42 | applies the modules in order |
| Engine.ProtocolEngine.Decrypt | PacketProcessor/src/protocol/ProtocolEngine.cpp:44-56 | undoes the modules in reverse order |
| Engine.SharedEngineRoundTrip | CDSGateway/src/main.cpp:26-34 | the engine of gateway and guard |
| Engine.SharedEngineIsExact | CDSGateway/src/main.cpp:26-34 | its output: four zero bytes, then the bytes plus 8 enciphered under 32 bytes 01 |
| Wire.BodyLayout | CDSGateway/src/main.cpp:60-104 | where everything lies in an endpoint and in both bodies |
| Wire.LittleIsExact | CDSGateway/src/main.cpp:79-104 | length fields are little-endian |
| Wire.BuildBody | CDSGateway/src/main.cpp:79-104 | the FILE or TEXT body |
| Wire.ParseHeader | CDSGuardSub/src/RecvMode.cpp:57-100 | the guard's parser |
| Wire.GuardRecovers | CDSGuardSub/src/RecvMode.cpp:57-108 | both endpoints and the rest are recovered, for 4-byte and 16-byte addresses |
| Wire.AppRecovers | FileTransferAppSub/src/TransferController.cpp:212-314 | the file name and data are recovered, or the text up to one final NUL |
| EndToEnd.BuildBuffer | CDSGateway/src/main.cpp:60-107 | the gateway's buffer |
| EndToEnd.OpenBuffer | CDSGuardSub/src/RecvMode.cpp:57-108 | what the guard passes on |
| EndToEnd.BufferRoundTrip | CDSGuardSub/src/RecvMode.cpp:57-108 | the application recovers the payload from the gateway's buffer |
| EndToEnd.GatewayToApplication | CDSGuardSub/src/RecvMode.cpp:50-108 | after a successful transfer the receiving side recovers endpoints and payload |
| EndToEnd.FramesTravelAsBytes | CDSGuardSub/src/GuardL2.cpp:217-250 | every frame and acknowledgement of a transfer survives the wire format |

## Left out

- DoubleArray.DoubleArrayTrie.Search: requires a machine that was packed, although the source searches after every build; what happens otherwise is stated for one input (`FalseHit.FalseHitThenEndless`) and not in general. On malformed UTF-8 the result is stated in codes and not in pattern occurrences, because the search skips malformed bytes without resetting its state, so a hit may reach over them.
- DoubleArray.DoubleArrayTrie.Read: reading is a method only on a machine that was packed, because on other arrays the loop may never end; `TakeTurn` and `Searching.After` give its turns on any arrays.
- Censoring.MatchedByRule: searches only a machine that was packed, for the same reason.
- DoubleArray.DoubleArrayTrie.Build: patterns with characters that have no code, and malformed patterns, make the source throw or skip bytes; they are preconditions here.
- DoubleArray.DoubleArrayTrie.Place: a run that reads past an empty vector is followed only up to that read; slots are numbers without a 32-bit width, and a negative index stands for the wrapped one that the bounds test rejects.
- FailLinks.SetFailLinks: pointers between nodes are node numbers, and the order in which a hash map yields children is left open.
- Censoring.CensorTask: runs only on a machine that was packed. Regular expression hits are an arbitrary list of intervals inside the text, hits of the deep-learning service an arbitrary list in characters; with that service switched on the text must be well formed, since the character count of the source does not end on a malformed byte.
- Spans.RunKeeps: each task is one atomic step, and ZIP reading and writing, images and logging are not part of this model.
- Sender.GuardL2Sender.Retransmit: the clock is the set of sequence numbers whose timer has run out; round-trip estimation is not modelled.
- TransferProperties.Delivered: sessions have distinct identifiers, acknowledgements arrive uncorrupted (the listener does not check their CRC), each locked region is one step, and packet numbers are unbounded; `WindowsAgree` shows that no number exceeds the packet count by more than 513.
- ManyWords.FewWordsOnce: a sufficient condition; the exact one is `OncePass.Once`, which follows the allocator node by node.
- TransferProperties.CanComplete: completion is stated as the existence of a loss-free continuation, not under a fairness assumption.
- Congestion.SoundKept: the congestion window is a whole number, the only values the source's double takes.
- Receiver.GuardL2Receiver.Handle: the local variables of a running receive call are fields, because frames interrupt it.
- FrameCodec.OneByteIsRejected: a change to the payload length is not covered, because the CRC is then computed over other bytes.
- Cbc.ARIAAlgorithm.Encrypt: the initialisation vector is a parameter.
- Engine.EngineRoundTrip: modules are values with two operations instead of objects behind an interface.
- Wire.ParseHeader: the source reads the header without checking that it is there; that the buffer is long enough is a precondition, and a file name length above 2^32 - 18, where the application's sum wraps, is read as a plain number.
- Sockets, `select`, user interface, policy pages, image hashing, endpoint discovery, the unused `wait_for_ack`, `PacketTransport` and the stub transports: input and output or plumbing without properties of the kind proved here.
- Memory-model races and mutex details.
