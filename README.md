# server-render, modelled in Dafny

`src/render.ts` of server-render is a small server-side HTML templating
engine. Its pieces are:

- `html` is a tagged-template function. It yields the template's fragments,
  trimmed of whitespace against tags, and in between them the interpolated
  values, flattened by `render`.
- `render` escapes a string and stringifies any other plain value.
  - It flattens arrays element by element.
  - It splices any other iterable, such as a nested `html` template, as it is.
  - It passes a promise through as one pending chunk.
- `renderChunk` turns chunks into output strings. It replaces each pending
  chunk by a `<server-render data-id='ID'></server-render>` placeholder and
  pushes the promise onto a shared queue at index `ID`.
- `stringify` drains the queue in whatever order the promises settle. It
  records the emitted form of each settled value under its id, then folds
  the skeleton with `substitute`, which replaces every placeholder by its
  record, recursively.
- `stream` sends the skeleton first. If anything is pending it then sends a
  client script, and then one `<template data-id='ID'>…</template>` fragment
  per promise, in settling order.

The model follows the file module by module:

| module | file | models |
|---|---|---|
| `Escaping` | escaping.dfy | `escape` (src/render.ts:11-15) as `Escape`, and a decoder of its five entities, `Unescape` |
| `Trimming` | trimming.dfy | `trim` (src/render.ts:20-22) as `Trim`, its two replaces as `TrimBeforeTags` and `TrimAfterTags` |
| `Values` | values.dfy | interpolated values as `Value`, the `Chunk` type (src/render.ts:24) as `Chunk`, promise adoption as `Settle`, the inline reading of a value as `Inline` |
| `Templates` | templates.dfy | `html` (src/render.ts:26-33) as `Html`, `render` (src/render.ts:39-44) as `Render`, and `isGenerator`'s classification (src/render.ts:35-37) as the `Gen` case |
| `Markers` | markers.dfy | the placeholder text (src/render.ts:53) as `Placeholder`, and `c.match(REGEXP_PLACEHOLDER)` (src/render.ts:74-77) as `Find` |
| `Emitter` | emitter.dfy | `renderChunk` (src/render.ts:46-56) as the method `Queue.RenderChunk`, specified by `EmitOut` |
| `Substitution` | substitution.dfy | `substitute` (src/render.ts:76-79) as `Substitute`, and the seedless `reduce` it is folded with (src/render.ts:71, 78) as `Reduce` and `Fold` |
| `Buffered` | buffered.dfy | `stringify` (src/render.ts:58-72) as the method `Stringify`, with its end-to-end theorem |
| `Streaming` | streaming.dfy | the fragments `stream` (src/render.ts:81-100) enqueues, as the method `Stream`; `join('')` (src/render.ts:93) as `Join` |
| `Scenarios` | scenarios.dfy | the template shapes of every test in test/render.test.ts, stated for any strings of those shapes |

The model represents a promise by the value it resolves to (`Deferred(v)`).
`Promise.race` becomes a choice among the queue slots still holding a
promise, and the drain loops may take any of them. The reference meaning of
a value is `Values.Inline`: the text the value stands for once every
promise in it has resolved in place.

The central result is `Buffered.Stringify`. Take any template that opens
with literal text, whose text holds nothing the placeholder pattern matches,
and whose promises each resolve to a string or to something whose rendering
opens with literal text. For such a template, `stringify` returns exactly
its inline reading, whatever order the promises settle in.

The source's own quirks are kept and stated as lemmas:

- non-strings are not escaped;
- `reduce` is called without a seed, so the first string is never
  substituted and an empty record throws;
- a missing id reads as `undefined`;
- the placeholder pattern is unanchored and ignores letter case;
- a record that refers back to itself recurses without end, which is
  modelled as a thrown error.

## Model

| member | source | states |
|---|---|---|
| Escaping.Entity | src/render.ts:3-9 | each special character maps to a named entity, which opens with '&' and closes with ';' |
| Escaping.EscapeIsReplaceAll | src/render.ts:11-15 | the `test` in front of the global replace only saves work: escaping is the character-by-character map whether or not a special character occurs |
| Escaping.ReplaceAllIdentity | src/render.ts:12-14 | text without a special character is returned unchanged |
| Escaping.EscapeAppend | src/render.ts:11-15 | escaping distributes over concatenation |
| Escaping.EscapeChar | src/render.ts:1-15 | one character becomes its entity if it is one of & < > " ' and stays itself otherwise |
| Escaping.EscapeSafe | src/render.ts:1-15 | escaped text holds none of < > " ' |
| Escaping.UnescapeEscape | src/render.ts:1-15 | escaping is lossless: decoding the five entities gives back the input |
| Escaping.UnescapeReplaceAll | src/render.ts:13 | decoding undoes the per-character replacement |
| Trimming.TrimDeletesWs | src/render.ts:17-22 | trimming only removes whitespace characters; every other character survives, in order |
| Trimming.TrimTight | src/render.ts:17-22 | after trimming, no whitespace sits directly before a '<' or directly after a '>' |
| Trimming.TrimNoTags | src/render.ts:17-22 | text with neither '<' nor '>' comes back unchanged, leading and trailing whitespace included |
| Trimming.TrimKeepsTextWs | src/render.ts:17-22 | whitespace that touches no tag bracket survives: a whitespace run between text that ends in neither whitespace nor '>' and text that opens with neither whitespace nor '<' is kept as it is, with each side trimmed on its own |
| Trimming.TrimBeforeClean | src/render.ts:17-21 | after the first replace, no whitespace run ends at a '<' |
| Trimming.TrimAfterKeepsClean | src/render.ts:18-21 | the second replace does not create a whitespace run before a '<' |
| Trimming.TrimAfterNoWsAfterGt | src/render.ts:18-21 | after the second replace, no whitespace follows a '>' |
| Values.Settle | src/render.ts:52 | the value a `then` callback receives is never itself a promise, and is no larger than the promise |
| Values.InlineSettle | src/render.ts:52 | adopting a nested promise does not change what the value reads as |
| Values.PendingsLighter | src/render.ts:39-44 | the pending values of a chunk list weigh less than the chunks |
| Values.NoPendingsAllText | src/render.ts:24 | a chunk list has no pending value exactly when every chunk is literal text |
| Templates.Html | src/render.ts:26-27 | a template always yields its first fragment (default '') trimmed, first |
| Templates.HtmlLiteral | src/render.ts:26-33 | a template without expressions is its one fragment, trimmed and not escaped |
| Templates.HtmlExtend | src/render.ts:29-32 | one more fragment appends the rendered expression before it and then the trimmed fragment; a missing expression renders as "undefined" |
| Templates.RenderMeaning | src/render.ts:39-44 | the rendered chunks read as the value: arrays in order with no separator, iterables spliced, strings escaped, other values only stringified |
| Templates.RenderAllMeaning | src/render.ts:41 | an array's chunks read as its items' readings concatenated |
| Templates.RenderPromises | src/render.ts:39-44 | each promise `render` meets becomes exactly one pending chunk, in order |
| Templates.RenderLighter | src/render.ts:39-44 | the promises a value renders to weigh less than the value, so the drain loops terminate |
| Templates.RenderAllAppend | src/render.ts:41 | flattening an array distributes over concatenation |
| Markers.Digits | src/render.ts:53 | the decimal form of an id is a non-empty run of digits |
| Markers.DigitsRoundTrip | src/render.ts:53-78 | `Number.parseInt` of the decimal form of an id gives back the id |
| Markers.DigitRun | src/render.ts:74 | `[0-9]+` takes the longest run of digits at the front |
| Markers.FindPlaceholder | src/render.ts:53-74 | every emitted placeholder matches the pattern with the id it was emitted with |
| Markers.MatchMarker | src/render.ts:74 | a placeholder in any letter case matches at its position and captures its id |
| Markers.FindMarker | src/render.ts:74-77 | the match is unanchored: a placeholder after text without '<' is found, whatever follows it |
| Markers.NoLtNoMarker | src/render.ts:74 | text without '<' never matches |
| Emitter.Queue.RenderChunk | src/render.ts:46-56 | the output is the chunks with each pending one replaced by a placeholder numbered from the queue length on entry; the pending values are appended to the queue, and the entries already there are untouched |
| Emitter.EmitOutAt | src/render.ts:46-56 | one output string per chunk; text passes unchanged; the k-th pending chunk gets id base + k, and its value is the k-th one queued |
| Emitter.EmitOutAppend | src/render.ts:47 | emitting distributes over concatenation, with the second part numbered after the first part's promises |
| Emitter.WeightClear | src/render.ts:68 | clearing a slot takes its value's size off the queue's weight |
| Emitter.WeightAsSlots | src/render.ts:52 | newly pushed slots weigh what their values weigh |
| Substitution.FoldExtends | src/render.ts:76-79 | substitution only appends to the accumulated string |
| Substitution.ReduceKeepsFirst | src/render.ts:71-78 | with no seed, the first string of a list is kept verbatim and never searched for a placeholder |
| Substitution.FoldThrowsAt | src/render.ts:71-79 | a string whose substitution throws makes the whole fold throw, wherever it stands and whatever follows it, so no partial string is returned; the failure is that string's own when every string before it was substituted |
| Substitution.EmptyRecordThrows | src/render.ts:78 | for any chain and any position after the first string, a placeholder whose id has an empty record makes the whole fold throw, with the empty `reduce`'s failure when every string before it was substituted |
| Substitution.FoldSnoc | src/render.ts:71-79 | folding one more string substitutes it into what the fold so far returned, and a failure earlier in the fold is kept |
| Substitution.MissingIdUndefined | src/render.ts:78 | for any chain, visited set and position after the first string, a placeholder whose id is missing from the chain appends "undefined" to what the fold had built so far |
| Substitution.WholeChunkReplaced | src/render.ts:74-78 | for any chain, a chunk holding a placeholder after text without '<', in any letter case, is substituted exactly as the bare placeholder is: the text around it is dropped and the chunk becomes the substituted record |
| Substitution.SelfReferenceThrows | src/render.ts:76-79 | for any chain, a placeholder whose record holds the same placeholder at any position after its first string cannot be substituted, and the failure is the recursion when the strings before that one were substituted |
| Buffered.Stringify | src/render.ts:58-72 | an empty skeleton throws; a clean template that opens with literal text comes out as its inline reading, whatever order the promises settle in |
| Buffered.ReduceEmitted | src/render.ts:71-79 | folding the emitted form of clean chunks that open with text, once every queued id has a faithful record, gives their inline reading |
| Buffered.FoldEmitted | src/render.ts:76-79 | folding the emitted form of clean chunks appends their inline reading |
| Buffered.SubstituteEmitted | src/render.ts:76-79 | the placeholder of a queued id is replaced by the inline reading of the queued value |
| Buffered.RecordStep | src/render.ts:64-68 | each pass records one more id and keeps every earlier record valid as the queue grows |
| Buffered.TracksStep | src/render.ts:64-68 | a slot is cleared exactly when its id gets a record; ids come from the queue length, so they are never reused |
| Buffered.Drained | src/render.ts:64 | once no slot holds a promise, every id below the queue length has a record |
| Buffered.WeightStep | src/render.ts:64-68 | each pass lowers the queue's weight |
| Buffered.CleanRender | src/render.ts:39-44 | rendering a clean value yields clean chunks |
| Buffered.CleanSettle | src/render.ts:52 | a clean promise settles to a clean value whose rendering opens with literal text |
| Buffered.EscapedNoMarker | src/render.ts:1-15 | escaped text never matches the placeholder pattern |
| Buffered.HtmlClean | src/render.ts:26-33 | a template whose fragments and expressions are clean is clean and opens with literal text |
| Buffered.DeferredStringClean | src/render.ts:40-52 | a promise of a string is clean |
| Buffered.DeferredTemplateClean | src/render.ts:26-40 | a promise of a clean template is clean |
| Streaming.JoinAppend | src/render.ts:93 | joining with the empty separator distributes over concatenation, so a fragment body is the bodies of its parts one after the other |
| Streaming.JoinSettled | src/render.ts:93 | a fragment body with nothing left pending is its inline reading |
| Streaming.Stream | src/render.ts:81-98 | the skeleton comes first, then the script exactly when the template queued a promise; then one fragment per queued id, each id exactly once, each holding the joined emitted form of its settled value |
| Streaming.StreamStep | src/render.ts:90-94 | flushing one more id leaves the earlier fragments as they were and describes the new one |
| Scenarios.LiteralTemplate | test/render.test.ts:18-30 | a template without expressions is clean and renders as its fragment trimmed (tests no_trim and trim; test render at lines 4-9 is the same shape) |
| Scenarios.Interpolation2 | test/render.test.ts:11-16 | two interpolated strings are each escaped in place between their trimmed fragments |
| Scenarios.Interpolation | test/render.test.ts:32-37 | an interpolated string is escaped in place (also test conditional at lines 46-51, whose expression evaluates to a string) |
| Scenarios.Stringified | test/render.test.ts:39-44 | a non-string is stringified and not escaped |
| Scenarios.Iterables | test/render.test.ts:53-58 | an array of strings flattens in order, each escaped, with no separator |
| Scenarios.NumericalIterables | test/render.test.ts:60-67 | an array of numbers flattens in order, each only stringified, with no separator |
| Scenarios.Thenable | test/render.test.ts:69-74 | a promise of a string reads as the string escaped |
| Scenarios.NestedThenable | test/render.test.ts:76-83 | a promise of a template holding a promise reads as the inner template inlined |
| Scenarios.Composition | test/render.test.ts:85-90 | a template nested without a promise is spliced in place |
| Scenarios.ItemsInline | test/render.test.ts:92-99 | an array of templates, each holding a promise, reads as their readings concatenated |
| Scenarios.ComposedIterableThenable | test/render.test.ts:92-99 | such an array inside a template flattens in order with no separator |

## Left out

- The `ReadableStream`, the `TextEncoderStream` and the controller's `enqueue`/`close` calls are not modelled. `Streaming.Stream` returns the sequence of enqueued strings, without byte encoding.
- The client script's text is not modelled. `Streaming.Stream` takes it as a parameter.
- Streaming.Stream runs `start` and the `pull` that drains the queue one after the other. It does not model how a consumer interleaves reads with them.
- Real promise timing, `async`/`await` and rejected promises are left out. A promise is its eventual value, and `Promise.race` is any slot that still holds a promise.
- `isGenerator` has no function of its own. A value it accepts is the `Gen` constructor, which holds the chunks the iterable yields.
- Generators are finite chunk sequences, not lazy single-pass iterators. An iterable that yields something other than a string or a promise is outside the model.
- `String(...)` of an arbitrary object is an opaque string, `Other(repr)`.
- `undefined` for a missing expression is `Other("undefined")`.
- Templates.Html takes its fragments as strings. A fragment with an invalid escape sequence has the cooked value `undefined`. As the first fragment it becomes '' through the default `initial = ''`, and as a later fragment `trim` throws a TypeError on it (src/render.ts:21, 31). Neither case is modelled.
- The JavaScript regex engine is not modelled. The placeholder pattern is matched by a function written for that one pattern. `Markers.Lower` folds ASCII letters only. That is exact for this pattern, which is all ASCII: without the `u` flag, case-insensitive matching never maps a character at or above code point 128 to one below it.
- Trimming.IsWs: the `\s` class is written out from the ECMAScript definition (WhiteSpace with the Zs characters, and LineTerminator). A JavaScript engine built on a different Unicode version may classify further characters.
- Markers.DigitsRoundTrip: `Number.parseInt` of a digit run is exact here. In JavaScript, ids above 2^53 lose precision, but the queue never gets that long.
- Substitution.Substitute: unbounded recursion through a self-referring record is modelled as `Thrown(Recursion)` rather than a stack overflow after some depth.
- Buffered.Stringify: the end-to-end equality is proved for clean templates only. A clean template is one whose text never matches the placeholder pattern and whose promises each resolve to a string or to something that renders opening with text. Otherwise the unseeded `reduce` and the unanchored pattern change the output, as the lemmas in `Substitution` show.
- mod.ts only re-exports `html`, `stringify` and `stream`, so it is not part of this model.
