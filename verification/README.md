# Verified model of Inference Engine algorithms

Dafny 4.11 models, with proofs, of the algorithmic parts of the Inference
Engine sources: the work-sharing loops, the two network iterators, the layout
and image copies, blob ownership, and the bracket matching, nesting and
comment-removal logic of the style checker `scripts/cpplint.py`.

`dafny verify dfyconfig.toml` checks the whole project.

## What is modelled, and what was found

**Work sharing** (`MixedRadix`, `Splitter`, `ParallelFor`, `ParallelRun`,
`ParallelSum`). Nested loops over a box of extents define a sequence of index
tuples. `splitter` is modelled in unsigned words of `m` values: each thread's
part is exact if and only if `n + team - 1` fits the word, although no
intermediate value exceeds the word only if `n + team` fits; otherwise the
rounded-up share comes out as 0, and one thread gets the calls 0 .. m - 2 while
the others get none. The odometer of `parallel_it_init` / `parallel_it_step` is
proved to walk exactly that sequence, for every rank, so that the threads' calls
put together are the nested loops, if and only if `n + team - 1` fits the word
or `n` is its largest value. `ParallelRun` is a step machine in which any number of workers
interleave in any way, a call's read and its write being separate steps: every
finished run leaves the buffer that the threads' computed parts leave one after
the other, which is that of the sequential loops whenever the parts cover them,
and a run is finished exactly after two steps per call. `parallel_sum*d` hands `input` to the
parallel reduction as its identity: the result equals the sequential sum if and
only if the scheduler forks no range or `input` is 0. The OpenMP reduction, whose
private copies start at 0, equals it always.

**Network iterators** (`Networks`, `NetworkIterator`, `CnnNetworkIterator`).
The depth-first iterator succeeds if and only if nothing reachable from the
heads is on a loop of at least two layers or connected to a missing layer. The
listing then holds exactly the reachable layers, and has no duplicates if and
only if no head is reachable from an earlier one (`RepeatedHead` is a concrete
case: the loop over the heads does not ask whether a head has been visited).
Heads computed from the network itself always meet that condition, and a
well-formed network is then listed completely, once, sources before targets, if
and only if it has no loop; layers of a loop that no input leads to are left out
of the listing without an error. The
breadth-first iterator delivers every layer that can be reached over links, from
an output to its consumers or from a layer to its live creators, once and in
order of distance; among layers of one distance the order is that in which the
layers delivered before name them, outputs first and creators after. Its `size()`
is their number.

**Bracket matching** (`Brackets`, `CloseExpression`, `AngleActs`,
`AngleBrackets`, `TemplateArguments`). `Brackets` says what a bracket encloses,
without any scanner. From `(`, `[` or `{` the scanners find exactly that,
whatever `<`, `>` and `;` the text holds, over any number of
lines, in both directions; so closing and reverse-closing undo each other on
every text. What a scan from a `<` or `>` reports is stated by counting, for the
start and for each pending bracket, the angle brackets that stand open directly
within it: a `>` takes one off unless it belongs to an arrow or an operator, and
a semicolon drops them all. The match is the first place with no bracket pending
where the count of the start becomes 0, if a `>` makes it so; right after it a
close is reported, and none exactly if there is no such place. So nothing beyond
a semicolon with no bracket pending is ever reported. If all four kinds
of brackets balance between a `<` and a `>`, and no semicolon and no angle bracket
of an operator stands there, each of the two is found from the other. A `<` or
`>` that the scan does not push, as in a shift or an arrow, is not there for it:
what the first bracket after it, or the last one before it, encloses is reported,
an angle bracket that is pushed counting as one, and nothing if that bracket faces
the other way, or if a semicolon or the end of the line comes first.

**Nesting** (`NestingModel`, `NestingBraces`, `NestingBlocks`, `NestingState`).
Blocks are objects that lines change in place, and checkpoints hold deep copies; the state
after each line is proved to be that of a value model (a comment at
`scripts/cpplint.py:2475-2477` says the stack is not modified in place, but
`open_parentheses`, `inline_asm` and `seen_open_brace` of its blocks are). For
every file the committed stack is that of the file with each `#else` and `#elif`
branch deleted, an `#else` brings back the stack from before its `#if`, and a
properly nested stretch restores the preprocessor stack.
Lines whose braces nest, heads of classes and namespaces included, however the
text is cut into lines, leave the blocks they found and on top of them, in order,
one for each brace left open, with the kind and the line of what opened it. The
open parentheses of a block are those of the lines it has been innermost for, and
a class head counts if and only if those of the innermost block balance or no
block is open. Inline assembly lasts from a line with an asm keyword that leaves
one parenthesis open until all are closed.

**Comment removal** (`MultiLineComments`). Exactly the lines of comments that
end are blanked out; the error is reported exactly for a text that stops inside
a comment, on the line where that comment starts; removing twice is removing
once, also when it fails. A line starts a comment if and only if its first
characters that are not blank are `/*` and no `*/` follows, and ends one if and
only if its last are `*/`. Blanks are the six white space characters of ASCII.

**Buffers** (`Layouts`, `ConvertLayout`, `ImageBlob`, `TopResults`, `BlobModel`,
`TBlob`).
`ConvertLayout` makes product(dims) copies if and only if no extent is 0: an
extent of 0 takes one turn, so that with buffers of exactly the elements, of
which there are none then, the first copy is out of range. With more room, exactly
the places of the positions shown change. It rearranges the
elements, and converting back restores the buffer. `copyFromRGB8` determines the
planar blob from the image and the image, by interleaving, from the blob. `TopResults` cuts the number asked for to the
size of the whole input, so it is undefined if and only if that number exceeds a
non-empty row and there are several rows; otherwise every row of the answer is a
top list. Blob objects follow a value model of all blobs and allocators, step by
step. Through any run of construction, allocation, release, copying, moving and
destruction, what blobs hold is live memory of their own allocators, each held by
one, and other live memory is memory whose release an allocator has refused, since
a blob drops its handle all the same. When no blob is left, every handle ever
issued has been freed exactly once if and only if no release was refused. A blob
copied to itself frees its memory first and is left with whatever fresh memory
holds. A blob asks the allocator it was given, and no other, until it is moved
from or destroyed; one that was given none gets a default one of its own, once.

Parameters stand for what the models cannot see: the word size, the schedule,
how a reduction splits its range, whether an allocator grants a request or a
release and what fresh memory holds, and the lines of a file already cut by the regular expressions.

## Model

| member | source | states |
|---|---|---|
| MixedRadix.NestedLoopsAtRank | include/ie_parallel.hpp:343-349 | the nested loops visit the tuple of mixed-radix rank k at time k, last index fastest |
| MixedRadix.RankAtTime | include/ie_parallel.hpp:343-349 | and every time below the product of the extents is the rank of the tuple visited then |
| Splitter.Split | include/ie_parallel.hpp:285-299 | in words of m values, every thread's part is exact if and only if n + team - 1 fits |
| Splitter.CutEnds | include/ie_parallel.hpp:285-299 | the parts start at 0 and end at n |
| Splitter.CutMonotone | include/ie_parallel.hpp:285-299 | the ends of the parts are in order and within n, so consecutive parts are disjoint and leave no gap |
| Splitter.CutBalanced | include/ie_parallel.hpp:285-299 | parts differ by at most one item, longer ones first |
| Splitter.ExactWhenItFits | include/ie_parallel.hpp:285-299 | the word arithmetic gives the ideal cut when n + team - 1 fits |
| Splitter.NothingWrapsExactly | include/ie_parallel.hpp:290-298 | for several threads and some work, every intermediate value is that of unbounded integers if and only if n + team fits |
| Splitter.PartWhenItWraps | include/ie_parallel.hpp:290-298 | what each thread gets when n + team - 1 wraps: nothing, nearly a whole word, or an end before the start |
| ParallelFor.ItInitAtTime | include/ie_parallel.hpp:266-273 | initialising at start gives the tuple the nested loops visit at that time |
| ParallelFor.ItStepAtTime | include/ie_parallel.hpp:275-283 | a step takes the tuple visited at time k to that visited at k + 1 |
| ParallelFor.ItStepRank | include/ie_parallel.hpp:275-283 | a step adds one to the rank, and reports a wrap exactly at the last tuple |
| ParallelFor.ParallelItInit | include/ie_parallel.hpp:266-273 | the digits written in place and the quotient returned are those of the specification |
| ParallelFor.ParallelItStep | include/ie_parallel.hpp:275-283 | the digits stepped in place and the carry are those of the specification |
| ParallelFor.For1d | include/ie_parallel.hpp:302-307 | a thread calls exactly what lies between the ends computed for it; its slice of the loop when the arithmetic fits |
| ParallelFor.ForNd | include/ie_parallel.hpp:337-350 | a thread of for_2d .. for_5d makes exactly the calls of its computed part, for every rank; its slice of the nested loops when the arithmetic fits |
| ParallelFor.ForRange | include/ie_parallel.hpp:345-349 | the worker's loop calls on the tuples that its odometer shows, one tick after the other |
| ParallelFor.TicksAreSlices | include/ie_parallel.hpp:345-349 | ticking from a tuple is going through the nested loops from there |
| ParallelFor.TeamCallsAreNestedLoops | include/ie_parallel.hpp:352-377 | the calls of all threads, one thread after the other, are the nested loops |
| ParallelFor.CoveredExactly | include/ie_parallel.hpp:337-377 | the threads together make the calls of the nested loops if and only if n + team - 1 fits the word or n is its largest value; otherwise they make too many |
| ParallelFor.NestedLoopsVisitOnce | include/ie_parallel.hpp:337-508 | a tuple is called on if and only if it is in the box, and at most once |
| ParallelRun.Tick | include/ie_parallel.hpp:343-349 | a step of a worker keeps every busy worker's tuple inside the box |
| ParallelRun.TickInv | include/ie_parallel.hpp:343-349 | a step of any worker keeps all workers in step with their parts and every other cell as it was |
| ParallelRun.TickAlone | include/ie_parallel.hpp:343-349 | with one busy worker, as when the part arithmetic wraps, the buffer stays what its calls so far have made of it |
| ParallelRun.FinishedIsInOrder | include/ie_parallel.hpp:352-508 | every finished run, however interleaved, leaves the buffer that the calls of the computed parts leave one after the other |
| ParallelRun.ParallelEqualsSequential | include/ie_parallel.hpp:352-508 | for every back end, thread count, extents and word; and it is the buffer of the sequential loops if n + team - 1 fits the word or n is its largest value |
| ParallelRun.FinishedAfterTwoTicksPerCall | include/ie_parallel.hpp:352-508 | a run is finished exactly when busy workers have made two steps per call of the computed parts, of which there are n under the same condition: none gets stuck |
| ParallelRun.NobodyIdle | include/ie_parallel.hpp:312-315 | the static TBB back end starts no thread without work, and as many as it may |
| ParallelSum.Sum1d | include/ie_parallel.hpp:148-179 | the summing body adds the sum over its range to its first value |
| ParallelSum.Sum2d | include/ie_parallel.hpp:181-219 | the same for rows and columns |
| ParallelSum.Sum3d | include/ie_parallel.hpp:220-264 | the same for pages, rows and columns |
| ParallelSum.SplitSum | include/ie_parallel.hpp:235-246 | cutting a range along any axis splits its sum |
| ParallelSum.ReduceValue | include/ie_parallel.hpp:151-161 | over any tree of splits the identity is counted once per fork |
| ParallelSum.ReduceIsSequentialSum | include/ie_parallel.hpp:148-264 | the parallel sum equals the sequential one if and only if no range is forked or input is 0 |
| ParallelSum.BoxIsLoops | include/ie_parallel.hpp:253-260 | the sum over a box is that over the calls of the nested loops |
| ParallelSum.OmpSumIsSequentialSum | include/ie_parallel.hpp:248-262 | the OpenMP reduction, whose private copies start at 0, equals the sequential sum for every input and every cut of the loop into chunks |
| Networks.Network.GetLayerConnections | src/inference_engine/builders/ie_network_builder.cpp:841-850 | the connections that start or end at a layer |
| Networks.Network.GetInputs | src/inference_engine/builders/ie_network_builder.cpp:765-782 | the layers at which no connection ends |
| NetworkIterator.Iterator.Begin | include/details/ie_inetwork_iterator.hpp:27-43 | success leaves the reversed post-order, at its first layer; failure means a loop or missing layer reachable from an input |
| NetworkIterator.Iterator.Dfs | include/details/ie_inetwork_iterator.hpp:93-129 | success adds, in post-order, layers reachable from the one entered, each new one once; failure exhibits a reachable loop or missing layer |
| NetworkIterator.Iterator.ForestDfs | include/details/ie_inetwork_iterator.hpp:81-91 | the post-order holds exactly what the heads reach, without duplicates if and only if no head is reachable from an earlier one |
| NetworkIterator.Iterator.Advance | include/details/ie_inetwork_iterator.hpp:60-63 | moves from position k of the list to position k + 1 |
| NetworkIterator.PostOrderHasNoLoop | include/details/ie_inetwork_iterator.hpp:115-122 | nothing in a completed post-order is on a loop |
| NetworkIterator.TraversedLayers | include/details/ie_inetwork_iterator.hpp:27-43 | the reversed post-order is exactly what is reachable; sorted and without duplicates under the head condition, and only then without duplicates |
| NetworkIterator.Traverse | include/details/ie_inetwork_iterator.hpp:27-129 | done if and only if nothing reachable is on a loop or connected to a missing layer; then lists what is reachable, in topological order |
| NetworkIterator.Drain | src/inference_engine/builders/ie_network_builder.cpp:753-755 | iterating from begin to end delivers the whole list and stops |
| NetworkIterator.InputsIndependent | src/inference_engine/builders/ie_network_builder.cpp:765-782 | the heads a network computes for itself never reach one another |
| NetworkIterator.UnreachedMeansLoop | src/inference_engine/builders/ie_network_builder.cpp:765-782 | a well-formed network with a layer no input reaches has a loop |
| NetworkIterator.Layers | src/inference_engine/builders/ie_network_builder.cpp:740-755 | what is listed is listed once, sources before targets; a well-formed network is listed completely if and only if it has no loop |
| NetworkIterator.RepeatedHead | include/details/ie_inetwork_iterator.hpp:87-90 | two heads of a network without loops for which the search completes and every listing repeats a layer; heads from getInputs are never like that |
| CnnNetworkIterator.Iterator.Begin | include/details/ie_cnn_network_iterator.hpp:48-59 | starts from the first consumer of the first input, if there is one |
| CnnNetworkIterator.Iterator.Next | include/details/ie_cnn_network_iterator.hpp:119-147 | takes the front off the queue, queues the unseen layers linked to it, children before parents, and returns the new front |
| CnnNetworkIterator.Iterator.Increment | include/details/ie_cnn_network_iterator.hpp:65-68 | the current layer stays the front of the queue |
| CnnNetworkIterator.NeighboursAreLinked | include/details/ie_cnn_network_iterator.hpp:128-144 | what is queued for a layer are the layers linked to it: consumers of one of its outputs, and live creators of one of its inputs, and no others |
| CnnNetworkIterator.NeighboursInOrder | include/details/ie_cnn_network_iterator.hpp:128-144 | output by output, consumer by consumer, and then creator by creator |
| CnnNetworkIterator.PushAllAdds | include/details/ie_cnn_network_iterator.hpp:128-144 | exactly the layers not seen before are queued, once each, and marked as seen |
| CnnNetworkIterator.MeasureDrops | include/details/ie_cnn_network_iterator.hpp:119-147 | each step leaves one layer fewer to deliver, so iteration ends on every graph |
| CnnNetworkIterator.BallIsWalks | include/details/ie_cnn_network_iterator.hpp:128-144 | the layers at most n links away are the ends of walks of at most n links, each from an output to a consumer or to a live creator |
| CnnNetworkIterator.PopLayered | include/details/ie_cnn_network_iterator.hpp:119-147 | the queue holds one sphere and part of the next, all nearer layers having been expanded: kept by a step |
| CnnNetworkIterator.DeliversTheRest | include/details/ie_cnn_network_iterator.hpp:119-147 | from any such state exactly the reachable layers not yet delivered follow, once each, nearer ones first |
| CnnNetworkIterator.DeliversAsDiscovered | include/details/ie_cnn_network_iterator.hpp:119-147 | they come in the order in which the layers delivered name them |
| CnnNetworkIterator.Layers | include/cpp/ie_cnn_network.h:182-191 | begin to end: every layer that the links lead to from the start layer, over children and parents, once, in order of distance and of discovery |
| CnnNetworkIterator.Drain | include/cpp/ie_cnn_network.h:197-199 | iterating delivers all that is left and then equals the end iterator |
| CnnNetworkIterator.Size | include/cpp/ie_cnn_network.h:197-199 | the number of layers that the links lead to from the start layer |
| Brackets.ForwardFindsEnclosed | scripts/cpplint.py:1465-1540 | reading forward with a stack finds j if and only if the bracket encloses the text up to j |
| Brackets.BackwardFindsEnclosed | scripts/cpplint.py:1587-1661 | reading backward likewise |
| CloseExpression.FindEndOfExpressionInLine | scripts/cpplint.py:1465-1540 | the loop computes the scan function, which the following lemmas are about |
| CloseExpression.FindStartOfExpressionInLine | scripts/cpplint.py:1587-1661 | the same backwards, including the characters skipped |
| CloseExpression.PopAll | scripts/cpplint.py:1501-1502 | pops the tentative angle brackets on top, and nothing below |
| CloseExpression.EndStepTracks | scripts/cpplint.py:1479-1537 | at every character the stack without its angle brackets is the stack of pending brackets, and the scan stops only at a bracket |
| CloseExpression.StartStepTracks | scripts/cpplint.py:1605-1659 | the same backwards; the character skipped is never a bracket |
| CloseExpression.SkippedIsNoBracket | scripts/cpplint.py:1611-1618 | what a backward scan steps over unseen is no bracket |
| CloseExpression.AfterOperatorByCharacters | scripts/cpplint.py:1491-1493 | a place is after an operator if and only if the word `operator`, not the end of a longer one, stands before it with nothing but blanks in between |
| CloseExpression.ScanIsForward | scripts/cpplint.py:1465-1540 | one line of a scan matches the same brackets as if there were no angle brackets |
| CloseExpression.ScanIsBackward | scripts/cpplint.py:1587-1661 | the same backwards |
| CloseExpression.CloseExpression | scripts/cpplint.py:1543-1584 | computes the place found by continuing the scan over the following lines |
| CloseExpression.ReverseCloseExpression | scripts/cpplint.py:1664-1699 | computes the place found by continuing over the preceding lines |
| CloseExpression.ClosingIsEnclosed | scripts/cpplint.py:1543-1584 | from a bracket, on any text: a place is the end of what the bracket encloses, and there is none if and only if it encloses nothing |
| CloseExpression.OpeningIsEnclosed | scripts/cpplint.py:1664-1699 | the same for the start, from a closing bracket |
| CloseExpression.CloseThenReverse | scripts/cpplint.py:1543-1699 | reverse-closing from the bracket that closes returns to the line and position started from |
| CloseExpression.ReverseThenClose | scripts/cpplint.py:1543-1699 | and the other way round |
| AngleBrackets.ClosingLess | scripts/cpplint.py:1543-1584 | from a `<` that the scan pushes, the place right after its match is reported, and none if and only if it has none; the match is a `>` with balanced brackets in between |
| AngleBrackets.ClosingRefuses | scripts/cpplint.py:1566-1568 | from any character that is no opening bracket, and from `<<` and `<=`, nothing is reported |
| AngleBrackets.NothingAfterSemicolon | scripts/cpplint.py:1529-1537 | nothing after a semicolon with no bracket pending is reported |
| AngleBrackets.ClosingLessUnpushed | scripts/cpplint.py:1483-1493 | a `<` after `<` or `operator` is not there for the scan: the end of what the first bracket after it encloses is reported, or the place after its match if a `<` that is pushed comes first, and nothing if a closing bracket, a semicolon or the end of the line does |
| AngleBrackets.ShiftClosesBracket | scripts/cpplint.py:1485-1490 | a shift from whose second `<` the end of a parenthesis is reported |
| AngleBrackets.OpeningGreater | scripts/cpplint.py:1664-1699 | from a `>` that the scan pushes, its match is reported, and none if and only if it has none; the match is a `<` with balanced brackets in between |
| AngleBrackets.OpeningRefuses | scripts/cpplint.py:1681-1683 | from any character that is no closing bracket nothing is reported |
| AngleBrackets.NothingBeforeSemicolon | scripts/cpplint.py:1650-1657 | nothing before a semicolon with no bracket pending is reported |
| AngleBrackets.PendingIsNested | scripts/cpplint.py:1465-1540 | nothing is pending exactly where the brackets of the text so far are balanced |
| AngleActs.SemicolonEnds | scripts/cpplint.py:1529-1537 | nothing after a semicolon with no bracket pending is a match |
| AngleActs.ActKeeps | scripts/cpplint.py:1479-1537 | each character keeps the stack to its shape, the pending brackets with the angle brackets that stand open within each, or is the match, or leaves nothing to match |
| AngleActs.DriveFinds | scripts/cpplint.py:1465-1540 | a scan that starts from an angle bracket ends at its match, and finds nothing exactly if there is none |
| AngleBrackets.OpeningGreaterUnpushed | scripts/cpplint.py:1609-1617 | a `>` of an arrow, comparison or operator is not there for the scan: the start of what the last bracket, or `>` that is pushed, before it ends is reported, and nothing if an opening bracket, a semicolon or the start of the line comes first |
| AngleBrackets.ArrowOpensBracket | scripts/cpplint.py:1609-1617 | an arrow from whose `>` the start of a parenthesis is reported |
| AngleBrackets.ReadsNested | scripts/cpplint.py:1465-1540 | a stretch that leaves no bracket pending is balanced |
| TemplateArguments.BalancedPasses | scripts/cpplint.py:1465-1540 | text in which all four kinds of brackets balance leaves what is pending as it was |
| TemplateArguments.ScanFollows | scripts/cpplint.py:1465-1540 | on text without operators and semicolons the stack of a scan is what is pending, angle brackets included, line by line |
| TemplateArguments.ClosingFindsMatch | scripts/cpplint.py:1543-1584 | from the `<` of such an argument list, over any number of lines, the place after its `>` is reported |
| TemplateArguments.OpeningFindsMatch | scripts/cpplint.py:1664-1699 | from its `>`, the `<` is reported |
| TemplateArguments.MatchRoundTrip | scripts/cpplint.py:1543-1699 | on such lists closing and reverse-closing undo each other |
| CloseExpression.GetTextInside | scripts/cpplint.py:4502-4555 | returns the text enclosed by the bracket before the start position, and nothing if and only if it encloses none |
| NestingModel.PreprocessCommits | scripts/cpplint.py:2405-2459 | a directive never changes the stack that has been committed |
| NestingModel.CommittedIsKept | scripts/cpplint.py:2405-2624 | at every point of every file the committed stack is that of the lines kept when all else branches are deleted |
| NestingModel.NestedStretch | scripts/cpplint.py:2405-2624 | a properly nested stretch restores the preprocessor stack and acts on the nesting stack as its kept lines do |
| NestingModel.ElseBranchesDoNotCount | scripts/cpplint.py:2405-2624 | deleting the else branches gives a properly nested stretch with the same effect from every state |
| NestingModel.KeptIsNested | scripts/cpplint.py:2405-2459 | the kept lines are properly nested and have no else branch left |
| NestingModel.InsideIf | scripts/cpplint.py:2427-2459 | the stack from before an #if is kept as it was for as long as its conditional lasts |
| NestingModel.ElseRestores | scripts/cpplint.py:2431-2444 | an #else or #elif brings back the stack from before its #if, the nearest whose conditional is still open |
| NestingBraces.BracesCounted | scripts/cpplint.py:2588-2624 | text without heads leaves the blocks it finds, and one block more for every brace it leaves open |
| NestingBraces.ConditionalBracesCounted | scripts/cpplint.py:2405-2624 | of a properly nested stretch only the braces of the kept lines count |
| NestingBraces.NestCounted | scripts/cpplint.py:2486-2624 | a text of nested blocks, headed blocks and declarations gives back the blocks it found, with one more for each brace it leaves open |
| NestingBraces.BlocksGivenBack | scripts/cpplint.py:2462-2624 | the same for lines, wherever the text is cut into lines and whatever heads it holds |
| NestingBraces.ConditionalBlocksGivenBack | scripts/cpplint.py:2405-2624 | and for properly nested stretches, of which only the kept lines need be such |
| NestingBraces.HeadClosed | scripts/cpplint.py:2588-2624 | a class or namespace head is closed by the brace closing its body, and taken back by a semicolon or parenthesis before any brace |
| NestingBlocks.ReadOne | scripts/cpplint.py:2486-2507 | each line adds its parentheses to the innermost block, and inline assembly lasts from the line that starts it until all parentheses are closed |
| NestingBlocks.NestLeaves | scripts/cpplint.py:2486-2624 | the stack a text of nested blocks, heads and declarations leads to, block by block: kind, line and brace of what opened each, and the parentheses and inline assembly of the lines it was innermost for |
| NestingBlocks.TextLeaves | scripts/cpplint.py:2462-2624 | the same for lines, wherever the text is cut into lines |
| NestingBlocks.ConditionalTextLeaves | scripts/cpplint.py:2405-2624 | and for properly nested stretches, of which only the kept lines need be such |
| NestingBlocks.InnermostParentheses | scripts/cpplint.py:2486-2491 | the open parentheses of the innermost block are those of the lines it was innermost for |
| NestingBlocks.ClassHeadCounts | scripts/cpplint.py:2534-2554 | a class head puts its block on the stack if and only if these balance or no block is open |
| NestingBlocks.HeadStands | scripts/cpplint.py:2512-2554 | a head waits for its brace on top of the stack, with the lines that begin meanwhile as its own |
| NestingBlocks.ClosingTakesInnermost | scripts/cpplint.py:2618-2621 | a closing brace takes off the innermost block, be it one found, and does nothing with none open |
| NestingState.DeepCopy | scripts/cpplint.py:2409-2437 | new blocks that look like the old ones |
| NestingState.NestingState.UpdatePreprocessor | scripts/cpplint.py:2405-2459 | the whole state, blocks in checkpoints included, becomes that of the value model |
| NestingState.NestingState.CountParentheses | scripts/cpplint.py:2486-2507 | changes the innermost block in place as in the value model, and no checkpoint |
| NestingState.NestingState.PushNamespaceHeads | scripts/cpplint.py:2512-2527 | pushes a block for each namespace head |
| NestingState.NestingState.PushClassHead | scripts/cpplint.py:2534-2554 | pushes a class if and only if the innermost block has no open parentheses or no block is open |
| NestingState.NestingState.ConsumeOne | scripts/cpplint.py:2588-2624 | one brace, semicolon or parenthesis: marks, pushes or pops, and no checkpoint changes |
| NestingState.NestingState.Update | scripts/cpplint.py:2462-2624 | the state after a line is that of the value model: no change of a block shows through a checkpoint |
| NestingState.Process | scripts/cpplint.py:2462-2624 | after a whole file; if it is properly nested, the stack of its kept lines and an empty preprocessor stack; if the braces of these nest, exactly the blocks they leave open |
| MultiLineComments.FindNext | scripts/cpplint.py:1310-1327 | the first line from a position on that passes the test |
| MultiLineComments.RemoveMultiLineCommentsFromRange | scripts/cpplint.py:1330-1335 | blanks out exactly the range |
| MultiLineComments.RemoveMarked | scripts/cpplint.py:1338-1351 | blanks out exactly the lines of comments that end; fails if and only if the text stops inside a comment, and names the line it starts on |
| MultiLineComments.RemoveMultiLineComments | scripts/cpplint.py:1338-1351 | the same with the marks of the checker |
| MultiLineComments.StartByCharacters | scripts/cpplint.py:1310-1317 | a line starts a comment if and only if `/*` stands after nothing but blanks and no `*/` from there on |
| MultiLineComments.EndByCharacters | scripts/cpplint.py:1322-1327 | a line ends one if and only if `*/` stands before nothing but blanks |
| MultiLineComments.NeverEndsUnique | scripts/cpplint.py:1346-1349 | there is one such line at most |
| MultiLineComments.CleaningIsIdempotent | scripts/cpplint.py:1338-1351 | removing again changes nothing, and fails again on the same line if it failed |
| Layouts.LayoutOffsetCounter.constructor | src/inference_engine/ie_layouts.cpp:19-26 | the multiplier of an axis is the product of the extents of the faster ones |
| Layouts.LayoutOffsetCounter.Offset | src/inference_engine/ie_layouts.cpp:47-54 | the sum of coordinates times multipliers |
| Layouts.DotIsOffset | src/inference_engine/ie_layouts.cpp:14-54 | that sum is the rank of the position with the layout's axes taken slowest first |
| Layouts.ImageOrder | src/inference_engine/ie_layouts.cpp:14-17 | in NCHW a batch of images is stored by image, channel, row and column, and in NHWC by image, row, column and channel |
| Layouts.VolumeAlong | src/inference_engine/ie_layouts.cpp:14-17 | every layout takes as much room as there are elements |
| ConvertLayout.OffsetPlaces | src/inference_engine/ie_layouts.cpp:47-54 | elements have distinct offsets below product(dims) |
| ConvertLayout.OffsetSurjective | src/inference_engine/ie_layouts.cpp:47-54 | and every such offset is an element's |
| ConvertLayout.Advance | include/ie_layouts.h:424-435 | the position in place moves to the next time, or reports that all have been shown |
| ConvertLayout.ConvertLayout | include/ie_layouts.h:407-438 | every element at its new place, all else unchanged, in product(dims) copies if and only if no extent is 0; with any extents, exactly the places of positions shown get an element shown there; unknown layouts are an error |
| ConvertLayout.RoomForElements | include/ie_layouts.h:413-422 | buffers of product(dims) elements have room for every position shown if and only if no extent is 0 |
| ConvertLayout.ConversionRoundTrip | include/ie_layouts.h:407-438 | converting there and back restores the elements |
| ConvertLayout.ConversionIsPermutation | include/ie_layouts.h:407-438 | different places of the destination hold elements from different places of the source |
| ConvertLayout.ConversionRearranges | include/ie_layouts.h:407-438 | the multiset of the elements is preserved |
| ConvertLayout.ConvertThereAndBack | include/ie_layouts.h:407-438 | two calls in a row restore the buffer |
| ImageBlob.CopyFromRGB8 | include/inference_engine.hpp:109-145 | every sample in its place, plane by plane; wrong rank or size changes nothing |
| ImageBlob.Separate | include/inference_engine.hpp:125-144 | the copying loops |
| ImageBlob.PlanarUnique | include/inference_engine.hpp:135-144 | each sample is written to a place of its own within the blob |
| ImageBlob.PlanarSample | include/inference_engine.hpp:135-144 | and every place of the blob is a sample's |
| ImageBlob.PlanarIsInterleaved | include/inference_engine.hpp:109-145 | interleaving the planes recovers the image, and only from its planar blob; the blob is a rearrangement of the image |
| ImageBlob.PlanarDetermines | include/inference_engine.hpp:109-145 | the image determines the blob and the blob the image |
| TopResults.TopResults | include/inference_engine.hpp:41-68 | every row of the answer is a top list of its row, but undefined if and only if more is asked for than a non-empty row holds and there are several rows |
| TopResults.RankRows | include/inference_engine.hpp:54-67 | the loop over the rows |
| TopResults.Rank | include/inference_engine.hpp:59-63 | the first n indexes are distinct, in descending order of value, and nothing larger is left out |
| TopResults.TopValuesUnique | include/inference_engine.hpp:60-63 | the values listed are determined by the row, ties apart |
| BlobModel.SettledIsConsistent | include/ie_blob.h:677-682 | a change of one blob and of what belongs to it keeps ownership and all other data |
| BlobModel.ReallocatedIsConsistent | include/ie_blob.h:677-682 | reallocation keeps ownership and all other blobs, and leaves fresh memory or none |
| BlobModel.FreeIsConsistent | include/ie_blob.h:781-785 | release keeps ownership and all other blobs, and leaves no memory |
| BlobModel.CopiedIsConsistent | include/ie_blob.h:759-764 | a copy has the size and the data of its source; a copy to itself is left with what fresh memory holds |
| BlobModel.MovedIsConsistent | include/ie_blob.h:771-776 | memory, allocator and data change hands, and the source keeps none |
| BlobModel.FreeAsksItsOwn | include/ie_blob.h:781-808 | a release turns to the allocator of the blob, or to one new default one if it has none, and to no other |
| BlobModel.ReallocatedAsksItsOwn | include/ie_blob.h:677-682 | so does a reallocation, and the handle is the next that this allocator issues |
| BlobModel.CopiedAsksItsOwn | include/ie_blob.h:759-764 | so does a copy; the allocator of its source is not asked |
| BlobModel.ApplyConsistent | include/ie_blob.h:601-815 | every operation keeps ownership: what blobs hold is live, their own and unshared, and all other live memory is memory whose release was refused |
| BlobModel.ApplyKeeps | include/ie_blob.h:601-815 | every operation leaves each blob it is not about as it was, data included |
| BlobModel.RunKeepsAllocator | include/ie_blob.h:601-815 | along a run a blob keeps its allocator until it is moved from or destroyed |
| BlobModel.ConstructedKeepsAllocator | include/ie_blob.h:532-534 | and what it holds is memory of the allocator it was constructed with |
| BlobModel.RunGrows | include/ie_blob.h:601-815 | along a run no handle is issued again and no release undone |
| BlobModel.EveryHandleFreed | include/ie_blob.h:626-628 | after a run that leaves no blob, every handle issued at any point of it was freed exactly once, or its release was refused and its memory is live |
| BlobModel.AllFreedOnce | include/ie_blob.h:626-628 | after such a run all handles were freed exactly once and no memory is live if and only if no release was refused |
| TBlob.Allocator.Alloc | include/ie_allocator.hpp:43-48 | a handle never issued before becomes live, or none is returned |
| TBlob.Allocator.Free | include/ie_allocator.hpp:49-53 | a handle is released, or the release is refused and the memory stays live; no handle is a no-op |
| TBlob.Blob.constructor | include/ie_blob.h:532-534 | one blob more, without memory, and all others as before |
| TBlob.Blob.GetAllocator | include/ie_blob.h:801-808 | the allocator there is, and no new one, or a default one if there is none; all else as before |
| TBlob.Blob.Free | include/ie_blob.h:781-785 | the state of all blobs and allocators after a release, granted or refused |
| TBlob.Blob.Allocate | include/ie_blob.h:677-682 | the state of all blobs and allocators after a reallocation |
| TBlob.Blob.CopyFrom | include/ie_blob.h:759-764 | the state of all blobs and allocators after a copy, and when copying is defined |
| TBlob.Blob.MoveFrom | include/ie_blob.h:771-776 | the state of all blobs and allocators after a move |
| TBlob.Blob.Destroy | include/ie_blob.h:626-628 | the state of all blobs and allocators after a destruction |
| TBlob.Program.Step | include/ie_blob.h:601-815 | each operation on any number of blobs changes the whole state as in the value model |
| TBlob.Program.DestroyAll | include/ie_blob.h:626-628 | destroying what is left ends a run of the value model without blobs |
| TBlob.Execute | include/ie_blob.h:601-815 | every program, run and cleaned up, ends in the state of the run of its operations in the value model |

## Left out

- Plugin, reader, request and configuration interfaces, shared-object loading, exceptions and type erasure: no algorithm to prove.
- TBB, OpenMP and std::partial_sort internals: taken by contract. Each thread number runs once, interleaving and splits of a range are arbitrary, and a partial sort yields a permutation with its front in order.
- Calls of func that read or write cells other than their own.
- Signed operand types and the product of the extents, which is computed in the operand types: extents and their product are unbounded integers except in Splitter.
- Sums and ranking over floating point: integers stand for the values, so rounding and NaN are not covered.
- NestingBraces.BracesCounted: for lines without heads; BlocksGivenBack is the statement with heads.
- NestingBraces.ConditionalBracesCounted: for kept lines without heads; ConditionalBlocksGivenBack is the statement with heads.
- NestingBraces.HeadClosed: one head on one line; NestCounted is the statement for heads within heads, however cut into lines.
- CloseExpression.GetTextInside: the start pattern is represented by the position where its first match ends.
- NestingBlocks.NestLeaves: texts in which a head waits for its brace while another head comes, and texts that close more braces than they open; ClosingTakesInnermost says what one brace more does.
- White space other than the six characters of ASCII in the tests for comments and operators.
- The regular expressions of NestingState.Update: a line is given as directive, heads, parentheses and tokens. The asm flag of a brace is taken as part of the line although it could depend on whether the text of a class head before it was cut off.
- Access specifiers, derived classes, namespace indentation, CheckBegin and CheckEnd reports and previous_stack_top of the nesting stack: they report style errors and do not feed back into the stacks.
- NestingState.PreprocessorInfo: checkpoints are values, not objects, as no code shares one; the blocks in them are objects.
- NestingState.SavedBlocks: a helper of the frame conditions, without a counterpart.
- Several outgoing ports of a connection, and networks that change while they are iterated over; the const begin() that turns an error into the end iterator.
- CnnNetworkIterator.Iterator.Next: inputs whose data object has expired are not modelled.
- ConvertLayout.ConvertLayout: the two buffers are distinct and have room for every position shown, and the rank is one for which the layout's axis table is a permutation; for other ranks the code indexes out of range.
- Layouts.LayoutOffsetCounter.constructor: the largest word that marks unset multipliers is -1, and multiplications do not wrap.
- ImageBlob.CopyFromRGB8: bytes are copied without conversion to the element type, and image and channel numbers do not exceed an unsigned int.
- BlobModel.Copied: a copy without memory on either side is undefined in the code; TBlob.Program.Step reports it, and the model copies nothing.
- Blobs on preallocated memory (their free is a no-op and the memory is not owned), locking, set(), the lifetime of allocators, and reuse of freed handle values, which are counted up instead.
- PropertyVector, Precision, CompoundBlob, PreProcessInfo and the layer parameter parsers: short case analyses or routine induction.
