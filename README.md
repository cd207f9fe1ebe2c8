# Tech-support Responder, modelled in Dafny

The system is a rule-based reply selector for a tech-support chat: the class
`Responder` (src/OOP1/TechSupport/Responder.java). Given the words of a user's
input it finds a canned reply in two lookups: a surface word is mapped to a
concept code by the synonym table ("crash" and "crashes" both to "001"), and
the code to a reply text by the response table. The first input word that
resolves decides the reply. When no word resolves, a default reply is chosen
at random, redrawing until the drawn index differs from the index of the
default reply given last; that index is the object's only mutable state.

The project has four modules:

- `Selection` (selection.dfy): the behaviour as values. `Resolve` is the
  two-stage lookup, `FirstMatch` the scan for the first resolving word,
  `FirstFresh` the index the redrawing loop settles on, `Respond` one call of
  `generateResponse` with the state it leaves, and `Session` a sequence of
  calls on one responder. The lemmas state which reply wins, that
  unrecognised words are skipped, that later words are never examined, and
  that two fallback replies in a row never share an index.
- `Vocabulary` (vocabulary.dfy): the built-in tables, copied from the fill
  methods, with the proof that every synonym's code has a reply and that
  there are nine distinct default replies.
- `TechSupport` (responder.dfy): the class `Responder` with the source's
  fields, its constructor, the three fill methods, `GenerateResponse` (the
  for-loop with its early return) and `PickDefaultResponse` (the redrawing
  loop). The constructor and the fill methods are proved to leave the
  `Vocabulary` tables in the fields. `GenerateResponse` is proved against
  `Selection.Respond`, and `PickDefaultResponse` against `Selection.FirstFresh`.
- `Scenarios` (scenarios.dfy): calls on a new `Responder`, showing what its
  contracts give a caller.

The random source is an oracle: the parameter `draws` lists the values that
successive `nextInt(size)` calls return. The input word set is a sequence, so
"the first word in iteration order" is well defined.

The field comment (Responder.java:32-33) says the last default index holds
the index of the default reply used last, so before any fallback one would
expect it to mean "no pick yet". But the field is never assigned, so it starts
at Java's default 0. The model follows the code: the constructor leaves it at
0, so the first fallback never picks the default reply at index 0
(`Scenarios.UnknownWordTwice`, `Selection.FirstFallbackAvoidsStart`). The
code also does not check its tables when it builds them. The model instead
proves the built-in tables well formed (`Vocabulary.BuiltInWellFormed`), and
`TechSupport.Responder.ValidIsWellFormed` carries this over to every
constructed responder.

## Model

| member | source | states |
|---|---|---|
| `Selection.FirstMatchFindsFirst` | src/OOP1/TechSupport/Responder.java:56-68 | if word i is the first input word that is in the synonym table and whose code is in the response table, the scan's reply is that word's reply |
| `Selection.FirstMatchNone` | src/OOP1/TechSupport/Responder.java:58-73 | the scan finds no reply exactly when no input word resolves, which is when the fallback is taken |
| `Selection.FirstMatchIgnoresLaterWords` | src/OOP1/TechSupport/Responder.java:64-67 | once a word has resolved, appending any words to the input does not change the reply: the loop returns at once |
| `Selection.FirstMatchSkipsUnresolved` | src/OOP1/TechSupport/Responder.java:64-65 | a word missing from the synonym table, or whose code is missing from the response table, can be removed from anywhere in the input without changing the reply: it does not stop the scan |
| `Selection.FirstMatchIsResponse` | src/OOP1/TechSupport/Responder.java:64-66 | a reply the scan finds is one of the response table's texts |
| `Selection.FirstFresh` | src/OOP1/TechSupport/Responder.java:193-195 | the index the redrawing loop settles on differs from the last index, is one of the draws, and every draw before it equals the last index |
| `Selection.FirstFreshUnique` | src/OOP1/TechSupport/Responder.java:193-195 | a draw that differs from the last index, after a run of draws equal to it, is exactly the index the loop picks |
| `Selection.Respond` | src/OOP1/TechSupport/Responder.java:56-73 | a call whose input resolves returns the first match and keeps the last index; otherwise it returns the default reply at a new index in range that differs from the previous last index, and records that index |
| `Selection.MatchingReplyIgnoresState` | src/OOP1/TechSupport/Responder.java:64-67 | a recognised input gets the same reply whatever the last index and the random draws, and leaves the last index unchanged, so repeating the call repeats the reply |
| `Selection.Session` | src/OOP1/TechSupport/Responder.java:56-73 | a sequence of calls on one responder yields one reply per call |
| `Selection.SessionStep` | src/OOP1/TechSupport/Responder.java:56-73 | call i of a session is one call of generateResponse from the last index that the calls before it left |
| `Selection.MatchesKeepIndex` | src/OOP1/TechSupport/Responder.java:64-67 | a run of calls whose inputs all resolve leaves the last default index unchanged |
| `Selection.FallbacksNeverRepeat` | src/OOP1/TechSupport/Responder.java:193-200 | two fallback calls with only recognised inputs between them never pick the same default index, and never the same text when no two defaults share a text |
| `Selection.FirstFallbackAvoidsStart` | src/OOP1/TechSupport/Responder.java:185-203 | the first fallback call of a session never picks the index the session started from (0 for a new responder) |
| `Selection.TwoDefaultsAlternate` | src/OOP1/TechSupport/Responder.java:193-200 | with exactly two defaults and a start index of 0, consecutive fallbacks pick index 1, 0, 1, ... and return the matching texts |
| `Vocabulary.BuiltInWellFormed` | src/OOP1/TechSupport/Responder.java:82-178 | every code the synonym table uses ("001" to "014") has a reply, and there are nine default replies, so a different index always exists |
| `Vocabulary.DefaultsDistinct` | src/OOP1/TechSupport/Responder.java:166-179 | the nine default replies are pairwise different texts |
| `Vocabulary.RepliesNonEmpty` | src/OOP1/TechSupport/Responder.java:110-179 | every keyed reply and every default reply is a non-empty text |
| `Vocabulary.BuiltInReplyNonEmpty` | src/OOP1/TechSupport/Responder.java:56-73 | on the built-in tables every call returns a non-empty reply, whether a word resolves or the fallback is taken |
| `Vocabulary.SynonymFamilies` | src/OOP1/TechSupport/Responder.java:82-89 | "crash" and "crashes" give the reply of code "001", "bug", "buggy" and "glitch" that of "004", and "xyzzy" gives none |
| `Vocabulary.SynonymsShareReply` | src/OOP1/TechSupport/Responder.java:80-104 | any two built-in words with the same code give the same reply, and that reply exists |
| `TechSupport.Responder.constructor` | src/OOP1/TechSupport/Responder.java:39-48 | the three tables hold the built-in data and the last default index is 0 |
| `TechSupport.Responder.ValidIsWellFormed` | src/OOP1/TechSupport/Responder.java:39-48 | on a constructed responder every synonym's code has a reply and there are at least two default replies |
| `TechSupport.Responder.FillResponseMap` | src/OOP1/TechSupport/Responder.java:110-160 | the response table gains the fourteen code-to-reply entries and no other field changes |
| `TechSupport.Responder.FillSynonymMap` | src/OOP1/TechSupport/Responder.java:80-104 | the synonym table gains the twenty-two word-to-code entries and no other field changes |
| `TechSupport.Responder.FillDefaultResponses` | src/OOP1/TechSupport/Responder.java:166-179 | the nine default replies are appended in order and no other field changes |
| `TechSupport.Responder.GenerateResponse` | src/OOP1/TechSupport/Responder.java:56-74 | the reply and the new last index are those of `Respond`: the first resolving word's reply with no change of state, or else a default pick; only the last index may change, and the reply is never empty |
| `TechSupport.Responder.PickDefaultResponse` | src/OOP1/TechSupport/Responder.java:185-203 | the recorded index is the first draw that differs from the old last index, so it differs from it, and the reply is the default at that index |
| `Scenarios.CrashThenCrashes` | src/OOP1/TechSupport/Responder.java:56-68 | on a new responder "crash" and then "crashes" both get the reply of code "001" |
| `Scenarios.FirstRecognisedWordWins` | src/OOP1/TechSupport/Responder.java:58-67 | for the input "xyzzy", "slow", "crash" the reply is that of "slow": the unknown word is skipped and "crash" is never reached |
| `Scenarios.UnknownWordTwice` | src/OOP1/TechSupport/Responder.java:185-203 | two unrecognised inputs on a new responder get two different default replies, and the first is not the default at index 0 |

## Left out

- The `Random` field and its distribution (Responder.java:31, 47, 194): the draws are a parameter, and uniformity is not modelled.
- TechSupport.Responder.PickDefaultResponse: requires that some draw differs from the last index. This stands in for the loop's termination with probability 1, which cannot be stated without a probability model.
- TechSupport.Responder.GenerateResponse: requires the same of the draws when no word resolves, for the same reason.
- `HashSet` iteration order: the input is a sequence, and the first resolving word in that sequence wins. Java leaves the order of a `HashSet` unspecified.
- Null words and null map values: the model's strings are never null, and a missing key is `None`.
- The Java maps and list are objects that the fill methods mutate in place. The model keeps them as map and sequence values in the fields, so aliasing of those objects is not modelled.
- Validation of the tables at construction, and a failure when fewer than two defaults are given: the code has no such check, so the model proves the built-in tables valid instead.
- Any front end that reads, splits or prints user input: it is not part of this model.
