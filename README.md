# Odia lyric generator: a verified model

The Odia lyrics app answers `POST /api/generate` with a list of lyric lines about a
topic. The handler in `odia-lyrics-app/src/app/api/generate/route.ts` does four things:

1. It maps the requested length category to a target number of lines: short 8, medium 12, long 16.
2. It normalises the topic. It trims it and collapses runs of two or more white-space
   characters. It substitutes the default pair "ପ୍ରେମ" / "ପ୍ରେମର" when nothing is
   left. It forms the possessive by the suffix ର, added unless the topic already ends
   with it.
3. It renders lines from fixed phrase banks and line templates, a refrain one time in four.
4. It collects rendered lines until the target is reached or `targetLines * 10`
   attempts are used. Every line is cleaned (`/\s+/g` → `" "`, then `trim`) and is kept
   only if it was not seen before.

The model is four Dafny modules:

- `Whitespace` covers the string built-ins. `IsSpace` is ECMAScript's WhiteSpace and
  LineTerminator set, which `\s` and `trim()` share. `Trim` is `trim()`.
  `ReplaceRuns(s, m)` is `s.replace(/\s{m,}/g, " ")`; `m = 2` is the topic rule and
  `m = 1` the line rule. `CleanLine` is the line clean-up.
- `Topic` covers `normaliseTopic`.
- `Templates` covers the phrase banks, the three refrains and the eight templates. The
  banks keep their literal text. `Math.random` is replaced by a `Draw`: whether a
  refrain is used, which template, and one index per `randomOf` call. `ValidDraw` keeps
  every index within its bank. `Render` produces the line a draw selects.
- `Generation` covers the length lookup, the collection loop (`Collect`, a `while` loop
  over a local `set` and `seq`), and the handler body (`Lyrics`). `Lyrics` takes an
  oracle `nat -> ValidDraw`: attempt `k` uses the draw `oracle(k)`. The result is the
  first-occurrence de-duplication `Dedup` of the cleaned candidate stream `Attempts`,
  cut at the attempt that fills the lyric. `Collect` produces attempt `k`'s line before
  it increments `safetyCounter`, where the source increments first. Nothing in between
  reads the counter, so the order is immaterial.

## Model

| member | source | states |
|---|---|---|
| Whitespace.Trim | odia-lyrics-app/src/app/api/generate/route.ts:94 | the result has no white space at either end; it is the part of the input after the leading white-space run, and everything after it is white space; it is empty exactly when the input is all white space |
| Whitespace.TrimKeepsVisible | odia-lyrics-app/src/app/api/generate/route.ts:94 | trimming removes no visible character |
| Whitespace.TrimFixpoint | odia-lyrics-app/src/app/api/generate/route.ts:94 | a string with visible ends is left unchanged by `trim()` |
| Whitespace.ReplaceRuns | odia-lyrics-app/src/app/api/generate/route.ts:94 | run replacement yields the empty string only from the empty string and keeps whether each end is white space; what it does to each run is stated by `RunValue` |
| Whitespace.RunValue | odia-lyrics-app/src/app/api/generate/route.ts:94 | a whole white-space run of at least `m` characters becomes one plain space, and a shorter one is kept as it is |
| Whitespace.ReplaceRunsShape | odia-lyrics-app/src/app/api/generate/route.ts:94 | after `/\s{2,}/g` or `/\s+/g` no two adjacent characters are white space; after `/\s+/g` the only white space left is the plain space |
| Whitespace.ReplaceRunsKeepsVisible | odia-lyrics-app/src/app/api/generate/route.ts:94 | run replacement keeps the visible characters, in order |
| Whitespace.ReplaceRunsFixpoint | odia-lyrics-app/src/app/api/generate/route.ts:94 | a string already in the shape a rule produces is left unchanged by it |
| Whitespace.ReplaceRunsAppend | odia-lyrics-app/src/app/api/generate/route.ts:120 | run replacement distributes over a concatenation whose seam is not inside a white-space run |
| Whitespace.CleanLine | odia-lyrics-app/src/app/api/generate/route.ts:120 | a cleaned line has visible ends, no two adjacent white-space characters and no white space other than `' '` |
| Whitespace.CleanLineKeepsVisible | odia-lyrics-app/src/app/api/generate/route.ts:120 | the line clean-up keeps every visible character, in order |
| Whitespace.TrimKeeps | odia-lyrics-app/src/app/api/generate/route.ts:120 | a non-empty piece with visible ends survives trimming |
| Whitespace.CleanLineKeeps | odia-lyrics-app/src/app/api/generate/route.ts:120 | a non-empty piece of a line with visible ends survives the clean-up, with its own white-space runs turned into single spaces |
| Whitespace.CleanLineIdempotent | odia-lyrics-app/src/app/api/generate/route.ts:120 | cleaning a cleaned line changes nothing |
| Topic.Possessive | odia-lyrics-app/src/app/api/generate/route.ts:99 | the possessive starts with the topic, ends in ର, is at most one character longer, and equals the topic exactly when the topic already ends in ର |
| Topic.PossessiveOnce | odia-lyrics-app/src/app/api/generate/route.ts:99 | the suffix is never added twice |
| Topic.PossessiveTrimmed | odia-lyrics-app/src/app/api/generate/route.ts:99 | the possessive of a topic with visible ends has visible ends |
| Topic.CleanTopic | odia-lyrics-app/src/app/api/generate/route.ts:94 | the cleaned topic has visible ends and no two adjacent white-space characters, and is empty exactly when the input is all white space; it is `ReplaceRuns(Trim(input), 2)`, so by `RunValue` each run of two or more white-space characters is one plain space |
| Topic.NormaliseTopic | odia-lyrics-app/src/app/api/generate/route.ts:93-101 | an all-white-space input gives the default pair; otherwise the topic is the cleaned input `CleanTopic(input)`; the topic is always non-empty, trimmed and free of white-space pairs, and the possessive follows the suffix rule |
| Topic.DefaultPairFollowsRule | odia-lyrics-app/src/app/api/generate/route.ts:95-97 | the default pair is a clean topic with its own possessive |
| Topic.NormaliseKeepsVisible | odia-lyrics-app/src/app/api/generate/route.ts:94 | a topic with something visible keeps exactly its visible characters |
| Topic.NormaliseFixpoint | odia-lyrics-app/src/app/api/generate/route.ts:94-100 | a topic already trimmed and without white-space pairs, single tabs included, is kept as given |
| Topic.NormaliseIdempotent | odia-lyrics-app/src/app/api/generate/route.ts:93-101 | normalising a normalised topic gives the same pair |
| Templates.RandomOf | odia-lyrics-app/src/app/api/generate/route.ts:89-91 | the chosen item is one of the items |
| Templates.Fragments | odia-lyrics-app/src/app/api/generate/route.ts:73-87 | a template receives one fragment per `randomOf` call, each from the bank that call names |
| Templates.Refrain | odia-lyrics-app/src/app/api/generate/route.ts:67-71 | the three refrains, each the text around the possessive with the topic where the source puts it; every refrain contains the possessive |
| Templates.General | odia-lyrics-app/src/app/api/generate/route.ts:73-87 | the eight general templates, filled with the fragments drawn for them; every template contains the possessive, whatever fragments are drawn |
| Templates.Render | odia-lyrics-app/src/app/api/generate/route.ts:118 | the line one attempt renders, a refrain or a general template as the draw says; it always contains the possessive |
| Generation.TargetLines | odia-lyrics-app/src/app/api/generate/route.ts:108-109 | the target is 8 exactly for `"short"`, 16 exactly for `"long"`, and 12 for `"medium"`, every other string and every non-string |
| Generation.TargetAsWritten | odia-lyrics-app/src/app/api/generate/route.ts:108-109 | the lookup as written is non-numeric exactly for names inherited from `Object.prototype`, and otherwise agrees with `TargetLines` |
| Generation.InheritedLengthGivesNoLines | odia-lyrics-app/src/app/api/generate/route.ts:108-115 | with an inherited name as `length`, the loop guard as written is false at its first test, while the intended target 12 lets the loop run |
| Generation.Dedup | odia-lyrics-app/src/app/api/generate/route.ts:121-124 | de-duplication yields no repeated line and no more lines than its input |
| Generation.DedupSameElements | odia-lyrics-app/src/app/api/generate/route.ts:121-124 | de-duplication keeps exactly the lines of its input |
| Generation.DedupSnoc | odia-lyrics-app/src/app/api/generate/route.ts:121-124 | one more candidate is appended when unseen and dropped when seen |
| Generation.OrderAppendNew | odia-lyrics-app/src/app/api/generate/route.ts:121-124 | appending a line not seen before keeps the kept lines in first-occurrence order |
| Generation.DedupInFirstOccurrenceOrder | odia-lyrics-app/src/app/api/generate/route.ts:121-124 | kept lines appear in the order of their first occurrence in the candidate stream |
| Generation.DedupConstant | odia-lyrics-app/src/app/api/generate/route.ts:121-124 | a non-empty stream of one repeated line yields that line once |
| Generation.LineOf | odia-lyrics-app/src/app/api/generate/route.ts:118-120 | attempt `k`'s line is the line draw `k` renders, cleaned; every such line has visible ends, no white-space pair and no white space but `' '`, and contains the possessive with its runs squashed when the possessive has visible ends |
| Generation.AttemptsAt | odia-lyrics-app/src/app/api/generate/route.ts:116-120 | the `k`-th candidate is the line of attempt `k`, whatever later attempts produce |
| Generation.CollectStep | odia-lyrics-app/src/app/api/generate/route.ts:115-125 | one attempt extends the de-duplicated stream by the new line when unseen, and the count it started from was unfilled |
| Generation.Collect | odia-lyrics-app/src/app/api/generate/route.ts:112-125 | the loop uses at most `targetLines * 10` attempts and returns the de-duplicated candidates of exactly those attempts, with no repeated line and at most `targetLines` lines; it stops at the first attempt count that fills the lyric, so stopping early means exactly `targetLines` lines |
| Generation.FixedDrawGivesOneLine | odia-lyrics-app/src/app/api/generate/route.ts:115-124 | when every attempt uses the same draw, any positive number of attempts yields exactly one line |
| Generation.AttemptsAreCleanAndKeepPossessive | odia-lyrics-app/src/app/api/generate/route.ts:118-120 | every candidate line is cleaned and contains the possessive, its white space squashed |
| Generation.Lyrics | odia-lyrics-app/src/app/api/generate/route.ts:108-125 | the handler returns between 1 and the target number of distinct lines, exactly the target unless all `targetLines * 10` attempts were used; the lines are the first occurrences of the cleaned candidates; each is non-empty, cleaned and contains the normalised possessive with its white-space runs squashed to single spaces (a tab kept in the topic is a space in the lines); the target is the intended lookup `TargetLines`, see Findings |
| Generation.TabKeptInTopic | odia-lyrics-app/src/app/api/generate/route.ts:94 | a single tab inside a topic survives normalisation |
| Generation.TabReplacedInLine | odia-lyrics-app/src/app/api/generate/route.ts:120 | a single tab inside a line becomes a space |

## Left out

- The HTTP layer is not modelled: `request.json()`, `NextResponse`, and the `catch` that answers 400 when the body is not JSON. These are framework I/O.
- The body's destructuring defaults and `String(topic ?? "")` are not modelled. `Lyrics` receives the topic already converted to a string. A missing `length` is `Text("medium")`, and any non-string value is `NotText`.
- `Math.random` is replaced by the oracle of draws. Only the choices are modelled, not their probabilities: the one-in-four refrain rate and uniform picks.
- JavaScript strings are UTF-16. The model uses sequences of Unicode scalar values, so lone surrogates are not represented. `endsWith("ର")` is exact because ର (U+0B30) is a single code unit.
- Generation.Lyrics: uses the intended lookup `TargetLines`, not the lookup as written. So its bound of at least one line does not describe the source when `length` is a name inherited from `Object.prototype` such as `"constructor"`. The source returns no lines there, as `InheritedLengthGivesNoLines` and the Findings row record.
- Collect: `lyricsSet` is local to the loop. That it holds exactly the elements of `lines` is stated as a loop invariant, not in the contract.
- `odia-lyrics-app/src/app/page.tsx` is not part of this model: React state, `fetch`, the clipboard and timers.
- `odia-lyrics-app/src/app/layout.tsx` is not part of this model: fonts and page metadata.

## Findings

| source | as written | input that shows it | evidently intended | confidence | as-written member | corrected member |
|---|---|---|---|---|---|---|
| odia-lyrics-app/src/app/api/generate/route.ts:108-109 | `LENGTH_MAP[length]` also finds names inherited from `Object.prototype`. Their values are truthy functions or objects, so `targetLines` is not a number, `lines.length < targetLines` compares against NaN, and the handler returns no lines | a body `{"topic": "x", "length": "constructor"}` (likewise `"toString"`, `"__proto__"`) | an unrecognised category behaves as `"medium"`: 12 lines | high; not executed | Generation.InheritedLengthGivesNoLines | Generation.TargetLines |
