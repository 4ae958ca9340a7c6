# Japanese suffix deinflector, modelled in Dafny

This project models the deinflector of ace-rs (`src/deinflect.rs`). The
deinflector takes a surface word, such as 食べない, and proposes candidate
dictionary forms, such as 食べる. It does this by undoing suffix rewrites
from a rule table.

- **Rule table.** Each reason label ("negative", "potential", ...) owns a list
  of variants. A variant is a suffix `kana_in`, its replacement `kana_out`, and
  two lists of category names (`rules_in`, `rules_out`).
- **Normalisation.** When the table is built, each category list becomes a
  `u8` mask. There is one bit per recognised name: v1, v5, vs, vk, vz, adj-i
  and iru. Unknown names are dropped.
- **Deinflection.** The result list starts with the word itself, which has
  mask 0 and no reasons. For each variant, the word is rewritten when three
  tests pass:
  - the category gate passes;
  - the word ends with `kana_in`;
  - the rewritten term is not empty.

  The rewrite's mask is `bits_out`. Its reason list is the variant's label
  followed by the reasons of the form it came from.

Files:

- `deinflect.dfy` (module `Deinflect`) holds the category table, the OR-fold
  `RuleToRuleFlags`, `NormalizeReasons`, the `Deinflector` value (`New`), and
  `Deinflect`. It also holds the specification functions `Expand` and
  `ExpandReason` and the lemmas about them.
- `closure.dfy` (module `DeinflectClosure`) defines the breadth-first,
  multi-step closure layer by layer. It proves that `Deinflect` returns only
  the first layer, and gives a small rule table on which the two differ.

Modelling decisions:

- **Masks.** A mask is a `bv8`, like the source's `u8`.
- **Strings.** Strings are `seq<char>`. The source measures lengths in UTF-8
  bytes. The length is only taken once `kana_in` is known to be a suffix of
  the term, so character counts give the same cut point and the same
  emptiness test.
- **Rule map.** The rule map is a Dafny `map`. A Rust `HashMap` has an
  unspecified but fixed iteration order, which the model holds as
  `Deinflector.order`: a duplicate-free list of the map's keys. `New` picks
  this order nondeterministically. Statements about the order of derived
  results are relative to `order`.
- **Loop structure.** `Deinflect` keeps the source's outer loop. A Dafny
  `for i := 0 to |results|` evaluates its bound once, as Rust's
  `for i in 0..results.len()` does. The two inner loops, over reasons and then
  over variants, are the methods `PushRewrites` and `PushVariantRewrites`.
  They are called from that outer loop.

**One step, not a closure.** The outer loop walks by index over a list that
it appends to, which reads as a breadth-first closure: each new candidate
would be deinflected again, with the category gate constraining the later
steps. But the loop's range (src/deinflect.rs:89) is fixed when the loop
starts, and at that point the list holds one element. So only the word itself
is ever expanded. Every derived result carries exactly one reason, and the
gate is only ever checked against mask 0. The model follows the code.
`DeinflectClosure` states the closure separately for comparison.

## Model

| member | source | states |
|---|---|---|
| `Deinflect.RuleTypes` | src/deinflect.rs:38-45 | the vocabulary is exactly v1, v5, vs, vk, vz, adj-i, iru; each name owns a single bit; no two names share a bit; bit 7 is never used |
| `Deinflect.RuleToRuleFlags` | src/deinflect.rs:121-130 | the loop's result equals the left OR-fold `FlagsOf` of the names' bits, and every listed name's bits are set in it |
| `Deinflect.FlagsOfContains` | src/deinflect.rs:123-127 | every name in the list has its bits set in the folded mask |
| `Deinflect.FlagsOfLeast` | src/deinflect.rs:121-130 | the folded mask sets no bit outside any mask that covers each name's bits; so the empty list and lists of unknown names give 0, and the fold is the OR of the recognised names' bits |
| `Deinflect.FlagsOfMonotone` | src/deinflect.rs:123-127 | if every recognised name of one list is in another, the first list's mask is contained in the second's |
| `Deinflect.FlagsOfSameNames` | src/deinflect.rs:123-127 | two lists that mention the same recognised names give the same mask, so order, repeats and unknown names do not matter |
| `Deinflect.FlagsOfPermutation` | src/deinflect.rs:123-127 | permuting the name list does not change the mask |
| `Deinflect.FlagsOfNeverSetsBit7` | src/deinflect.rs:38-45 | with the source's vocabulary, no mask computed by the fold has bit 7 set |
| `Deinflect.NormalizeReasons` | src/deinflect.rs:52-81 | the output has the same reason labels as the input; each label keeps its variants in the same number and order, with kana_in and kana_out copied unchanged and bits_in and bits_out the folded masks of rules_in and rules_out |
| `Deinflect.New` | src/deinflect.rs:37-50 | the deinflector's map is the normalisation of the rule data against the category vocabulary, and its iteration order lists each reason label exactly once |
| `Deinflect.Deinflect` | src/deinflect.rs:83-119 | the result is the seed followed by one expansion of the seed; it has one more element than there are variants whose kana_in ends the word and whose rewrite is non-empty; the first element is the word unchanged with mask 0 and no reasons; each later element is the rewrite of the word by a variant whose three tests pass, and every such rewrite occurs; each later element has a non-empty term and exactly one reason |
| `Deinflect.PushRewrites` | src/deinflect.rs:91-115 | trying every variant of every reason, in the map's order, on one candidate appends exactly that candidate's expansion |
| `Deinflect.PushVariantRewrites` | src/deinflect.rs:92-114 | trying the variants of one reason, with the source's skip test, appends exactly the rewrites of the variants that pass, in order |
| `Deinflect.SkipsExactlyWhenNotApplies` | src/deinflect.rs:99-104 | the source's skip test rejects a variant exactly when the gate, the suffix test or the non-empty test fails |
| `Deinflect.SkipVariantStep` | src/deinflect.rs:99-104 | a variant that the skip test rejects adds nothing to the expansion |
| `Deinflect.PushVariantStep` | src/deinflect.rs:106-113 | for a variant that passes the skip test, the candidate the loop builds is the rewrite: the term cut before kana_in and extended by kana_out, mask bits_out, reasons prefixed by the label; the expansion grows by exactly that candidate |
| `Deinflect.ExpandStep` | src/deinflect.rs:91-115 | handling one more reason extends the expansion by that reason's rewrites |
| `Deinflect.RewrittenLength` | src/deinflect.rs:100-101 | once the suffix test has passed, the unsigned length expression cannot underflow, and it is zero exactly when the whole term is kana_in and kana_out is empty |
| `Deinflect.ExpandReasonSound` | src/deinflect.rs:92-113 | each rewrite made from one reason's variants comes from one of those variants, and the candidate passes all three of that variant's tests |
| `Deinflect.ExpandSound` | src/deinflect.rs:91-113 | each rewrite made from the table comes from one variant of one reason in the table, and the candidate passes all three of that variant's tests |
| `Deinflect.ExpandReasonComplete` | src/deinflect.rs:92-113 | every variant of a reason whose three tests pass contributes its rewrite |
| `Deinflect.ExpandComplete` | src/deinflect.rs:91-113 | every variant in the table whose three tests pass contributes its rewrite |
| `Deinflect.ExpandSeedShape` | src/deinflect.rs:84-112 | a rewrite of the seed has a non-empty term and exactly one reason, and that reason is a label of the table |
| `Deinflect.ExpandSeedCount` | src/deinflect.rs:89-116 | one expansion of the seed has exactly one element per variant whose kana_in ends the word and whose rewrite is non-empty; the gate never rejects anything, because the seed has mask 0 |
| `Deinflect.ExpandSeedFacts` | src/deinflect.rs:84-118 | one expansion of the seed: its count, soundness, completeness, non-empty terms and single reasons |
| `Deinflect.ExpandRespectsGate` | src/deinflect.rs:99 | a candidate with a non-zero mask is only rewritten by variants whose bits_in share a bit with that mask |
| `DeinflectClosure.DeinflectIsFirstLayer` | src/deinflect.rs:89 | what `Deinflect` returns equals the breadth-first closure cut off after its first layer |
| `DeinflectClosure.StepSound` | src/deinflect.rs:89-116 | each candidate of a closure step comes from expanding one candidate of the previous layer |
| `DeinflectClosure.RewriteAddsOneReason` | src/deinflect.rs:106-107 | a rewrite puts exactly one reason in front of those of the candidate it came from |
| `DeinflectClosure.StepReasons` | src/deinflect.rs:106-107 | a step adds one reason to candidates that all carry the same number of reasons |
| `DeinflectClosure.LayerReasons` | src/deinflect.rs:106-107 | every candidate in layer k of the closure carries exactly k reasons |
| `DeinflectClosure.FirstStepExample` | src/deinflect.rs:99-113 | with a negative rule (ない to る), a potential rule (られる to る) and a godan-only variant (る to う), 食べられない expands in one step to 食べられる alone, with one reason |
| `DeinflectClosure.SecondStepExample` | src/deinflect.rs:99-113 | expanding 食べられる, which is an ichidan verb, gives 食べる through the potential rule and nothing else; a godan-only variant (る to う) passes the suffix and non-empty tests on it, so the category gate alone rejects that variant |
| `DeinflectClosure.TwoStepExample` | src/deinflect.rs:89 | on that table, layer 2 of the closure contains 食べる with two reasons, while the first-layer cut-off that `Deinflect` returns never contains 食べる |

## Left out

- The JSON parse in `Deinflector::new` (src/deinflect.rs:47) is a call into
  serde_json that panics on malformed data. `New` takes rule data that is
  already parsed.
- The iteration order of a Rust `HashMap` is unspecified. The model keeps an
  arbitrary duplicate-free order of the keys, and orders derived results only
  relative to it.
- UTF-8 byte lengths are replaced by character counts. They agree wherever
  the code uses lengths, as explained above.
- The unsigned expression `len - kana_in.len() + kana_out.len()` could in
  principle overflow `usize` on the addition. This is not modelled, because
  string lengths are far below that bound.
- The dictionary store, the lookup orchestrator and frequency merging are
  not part of this model. `src/dict.rs` only opens an SQLite file and
  creates its schema. The import and lookup code it would need is not part
  of this model.
- Media scraping and downloads, the AnkiConnect client, the configuration
  loader and command-line parsing (`src/media.rs`, `src/utils.rs`,
  `src/anki.rs`, `src/config.rs`, `src/main.rs`, `src/ace.rs`) are network,
  file-system, randomness and library plumbing. They have no logic to
  verify and are not modelled.
