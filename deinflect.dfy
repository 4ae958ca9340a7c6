/**
 The Japanese suffix deinflector of src/deinflect.rs.

 A rule table maps a reason label ("negative", "past", ...) to its rule
 variants. Each variant rewrites a suffix `kanaIn` of the current surface
 form into `kanaOut`, is gated by a category mask `bitsIn`, and gives the
 new form the category mask `bitsOut`. Category names are turned into masks
 once, when the table is built (`RuleToRuleFlags`, `NormalizeReasons`);
 `Deinflect` then rewrites a word into its candidate base forms.

 Strings are sequences of characters. The source measures strings in UTF-8
 bytes; because `kanaIn` is always a suffix of the term when a length is
 taken, character counts give the same cut point and the same emptiness test.
 */
module Deinflect {

  /** A category mask: the source's `u8`. */
  type Bits = bv8

  // ---------------------------------------------------------------------------
  // Category names and their bits
  // ---------------------------------------------------------------------------

  /** The category vocabulary built in `Deinflector::new`: each recognised
      name owns one bit of its own, and bit 7 is never used. */
  function RuleTypes(): (t: map<string, Bits>)
    ensures t.Keys == {"v1", "v5", "vs", "vk", "vz", "adj-i", "iru"}
    ensures forall name | name in t :: t[name] != 0 && t[name] & (t[name] - 1) == 0
    ensures forall a, b | a in t && b in t && a != b :: t[a] & t[b] == 0
    ensures forall name | name in t :: t[name] & 0x80 == 0
  {
    map[
      "v1" := 0x01,     // verb, ichidan
      "v5" := 0x02,     // verb, godan
      "vs" := 0x04,     // verb, suru
      "vk" := 0x08,     // verb, kuru
      "vz" := 0x10,     // verb, zuru
      "adj-i" := 0x20,  // i-adjective
      "iru" := 0x40     // intermediate -iru form (progressive, perfect)
    ]
  }

  /** What one name contributes to a mask: its bit, or nothing when the
      table does not know it. */
  function NameBits(name: string, ruleTypes: map<string, Bits>): Bits
  {
    if name in ruleTypes then ruleTypes[name] else 0
  }

  /** The bitwise OR of the bits of `names`, folded from the left. */
  function FlagsOf(names: seq<string>, ruleTypes: map<string, Bits>): Bits
  {
    if names == [] then 0
    else FlagsOf(names[..|names| - 1], ruleTypes) | NameBits(names[|names| - 1], ruleTypes)
  }

  /** `Deinflector::rule_to_rule_flags`: OR together the bits of every
      recognised name. */
  method RuleToRuleFlags(rules: seq<string>, ruleTypes: map<string, Bits>) returns (value: Bits)
    ensures value == FlagsOf(rules, ruleTypes)
    ensures forall name | name in rules :: value | NameBits(name, ruleTypes) == value
  {
    value := 0;
    for i := 0 to |rules|
      invariant value == FlagsOf(rules[..i], ruleTypes)
    {
      assert rules[..i + 1][..i] == rules[..i];
      if rules[i] in ruleTypes {
        value := value | ruleTypes[rules[i]];
      }
    }
    assert rules[..|rules|] == rules;
    forall name | name in rules
      ensures value | NameBits(name, ruleTypes) == value
    {
      FlagsOfContains(rules, ruleTypes, name);
    }
  }

  /** Every name in the list has all of its bits set in the fold. */
  lemma {:induction false} FlagsOfContains(names: seq<string>, ruleTypes: map<string, Bits>, name: string)
    requires name in names
    ensures FlagsOf(names, ruleTypes) | NameBits(name, ruleTypes) == FlagsOf(names, ruleTypes)
  {
    var n := |names| - 1;
    if names[n] != name {
      assert name in names[..n];
      FlagsOfContains(names[..n], ruleTypes, name);
    }
  }

  /** The fold sets no bit beyond those of the names: it lies below every
      mask that covers each name's bits. With `FlagsOfContains`, the fold is
      the least mask covering the names, i.e. their OR; the empty list and a
      list of unknown names give 0. */
  lemma {:induction false} FlagsOfLeast(names: seq<string>, ruleTypes: map<string, Bits>, cover: Bits)
    requires forall name | name in names :: NameBits(name, ruleTypes) | cover == cover
    ensures FlagsOf(names, ruleTypes) | cover == cover
  {
    if names != [] {
      var n := |names| - 1;
      assert names[n] in names;
      forall name | name in names[..n]
        ensures NameBits(name, ruleTypes) | cover == cover
      {
        assert name in names;
      }
      FlagsOfLeast(names[..n], ruleTypes, cover);
    }
  }

  /** Monotonicity: when every recognised name of `a` is also in `b`, the
      mask of `a` is contained in the mask of `b`. */
  lemma FlagsOfMonotone(a: seq<string>, b: seq<string>, ruleTypes: map<string, Bits>)
    requires forall name | name in ruleTypes && name in a :: name in b
    ensures FlagsOf(a, ruleTypes) | FlagsOf(b, ruleTypes) == FlagsOf(b, ruleTypes)
  {
    var fb := FlagsOf(b, ruleTypes);
    forall name | name in a
      ensures NameBits(name, ruleTypes) | fb == fb
    {
      if name in ruleTypes {
        FlagsOfContains(b, ruleTypes, name);
      }
    }
    FlagsOfLeast(a, ruleTypes, fb);
  }

  /** Two name lists that mention the same recognised names give the same
      mask: order, repeats and unknown names make no difference. */
  lemma FlagsOfSameNames(a: seq<string>, b: seq<string>, ruleTypes: map<string, Bits>)
    requires forall name | name in ruleTypes :: name in a <==> name in b
    ensures FlagsOf(a, ruleTypes) == FlagsOf(b, ruleTypes)
  {
    FlagsOfMonotone(a, b, ruleTypes);
    FlagsOfMonotone(b, a, ruleTypes);
  }

  /** Permuting a name list does not change its mask. */
  lemma FlagsOfPermutation(a: seq<string>, b: seq<string>, ruleTypes: map<string, Bits>)
    requires multiset(a) == multiset(b)
    ensures FlagsOf(a, ruleTypes) == FlagsOf(b, ruleTypes)
  {
    forall name | name in ruleTypes
      ensures name in a <==> name in b
    {
      assert name in a <==> name in multiset(a);
      assert name in b <==> name in multiset(b);
    }
    FlagsOfSameNames(a, b, ruleTypes);
  }

  /** With the source's vocabulary, no mask ever has bit 7 set. */
  lemma {:induction false} FlagsOfNeverSetsBit7(names: seq<string>)
    ensures FlagsOf(names, RuleTypes()) & 0x80 == 0
  {
    var ruleTypes := RuleTypes();
    forall name | name in names
      ensures NameBits(name, ruleTypes) | 0x7F == 0x7F
    {
    }
    FlagsOfLeast(names, ruleTypes, 0x7F);
  }

  // ---------------------------------------------------------------------------
  // The rule table
  // ---------------------------------------------------------------------------

  /** A rule variant as read from the rule data: category names, not masks. */
  datatype ReasonInfo = ReasonInfo(kanaIn: string, kanaOut: string, rulesIn: seq<string>, rulesOut: seq<string>)

  /** Reason label to its variants, as read from the rule data. */
  type Reasons = map<string, seq<ReasonInfo>>

  /** A rule variant whose category names have been turned into masks. */
  datatype NormalizedReasonInfo = NormalizedReasonInfo(kanaIn: string, kanaOut: string, bitsIn: Bits, bitsOut: Bits)

  /** Reason label to its normalised variants. */
  type NormalizedReasons = map<string, seq<NormalizedReasonInfo>>

  /** `normalized` lists the variants of `source` in the same order, with the
      suffixes copied unchanged and each category list replaced by its mask. */
  predicate VariantsNormalized(normalized: seq<NormalizedReasonInfo>, source: seq<ReasonInfo>, ruleTypes: map<string, Bits>)
  {
    && |normalized| == |source|
    && forall i | 0 <= i < |source| ::
         && normalized[i].kanaIn == source[i].kanaIn
         && normalized[i].kanaOut == source[i].kanaOut
         && normalized[i].bitsIn == FlagsOf(source[i].rulesIn, ruleTypes)
         && normalized[i].bitsOut == FlagsOf(source[i].rulesOut, ruleTypes)
  }

  /** `normalized` has exactly the reason labels of `reasons`, each with its
      variants normalised. */
  predicate IsNormalizationOf(normalized: NormalizedReasons, reasons: Reasons, ruleTypes: map<string, Bits>)
  {
    && normalized.Keys == reasons.Keys
    && forall reason | reason in reasons :: VariantsNormalized(normalized[reason], reasons[reason], ruleTypes)
  }

  /** `Deinflector::normalize_reasons`: visit the reasons in some order (a
      `HashMap` promises none) and normalise the variants of each. */
  method NormalizeReasons(reasons: Reasons, ruleTypes: map<string, Bits>) returns (normalized: NormalizedReasons)
    ensures IsNormalizationOf(normalized, reasons, ruleTypes)
  {
    normalized := map[];
    var pending := reasons.Keys;
    while pending != {}
      invariant pending <= reasons.Keys
      invariant normalized.Keys == reasons.Keys - pending
      invariant forall reason | reason in normalized :: VariantsNormalized(normalized[reason], reasons[reason], ruleTypes)
      decreases pending
    {
      var reason :| reason in pending;
      var infos := reasons[reason];
      var variants: seq<NormalizedReasonInfo> := [];
      for j := 0 to |infos|
        invariant VariantsNormalized(variants, infos[..j], ruleTypes)
      {
        var bitsIn := RuleToRuleFlags(infos[j].rulesIn, ruleTypes);
        var bitsOut := RuleToRuleFlags(infos[j].rulesOut, ruleTypes);
        variants := variants + [NormalizedReasonInfo(infos[j].kanaIn, infos[j].kanaOut, bitsIn, bitsOut)];
      }
      assert infos[..|infos|] == infos;
      normalized := normalized[reason := variants];
      pending := pending - {reason};
    }
  }

  /** The `Deinflector`: its normalised rule map, together with the order in
      which iterating that map yields the reason labels. A `HashMap` does not
      specify this order, but it is fixed for a given map. */
  datatype Deinflector = Deinflector(normalizedReasons: NormalizedReasons, order: seq<string>)

  /** `order` lists every reason label of the map exactly once. */
  predicate Valid(d: Deinflector)
  {
    && (forall reason | reason in d.order :: reason in d.normalizedReasons)
    && (forall reason | reason in d.normalizedReasons :: reason in d.order)
    && (forall i, j | 0 <= i < j < |d.order| :: d.order[i] != d.order[j])
  }

  /** `Deinflector::new`, from rule data already parsed: normalise it against
      the category vocabulary; the iteration order is whatever the map gives. */
  method New(reasons: Reasons) returns (d: Deinflector)
    ensures Valid(d)
    ensures IsNormalizationOf(d.normalizedReasons, reasons, RuleTypes())
  {
    var normalized := NormalizeReasons(reasons, RuleTypes());
    var order: seq<string> := [];
    var pending := normalized.Keys;
    while pending != {}
      invariant pending <= normalized.Keys
      invariant forall reason | reason in order :: reason in normalized && reason !in pending
      invariant forall reason | reason in normalized && reason !in pending :: reason in order
      invariant forall i, j | 0 <= i < j < |order| :: order[i] != order[j]
      decreases pending
    {
      var reason :| reason in pending;
      order := order + [reason];
      pending := pending - {reason};
    }
    d := Deinflector(normalized, order);
  }

  // ---------------------------------------------------------------------------
  // Deinflection
  // ---------------------------------------------------------------------------

  /** `DeinflectResult`: a candidate base form, the categories it now has
      (0 = unconstrained) and the reasons applied, innermost first. */
  datatype DeinflectResult = DeinflectResult(term: string, rules: Bits, reasons: seq<string>)

  /** The word itself, unconstrained, with no reasons: the first result. */
  function Seed(word: string): DeinflectResult
  {
    DeinflectResult(word, 0, [])
  }

  predicate EndsWith(s: string, suffix: string)
  {
    |suffix| <= |s| && s[|s| - |suffix|..] == suffix
  }

  /** The category gate: an unconstrained candidate takes any variant, a
      constrained one only a variant sharing one of its categories. */
  predicate PassesGate(rules: Bits, bitsIn: Bits)
  {
    rules == 0 || rules & bitsIn != 0
  }

  /** The length of the term a rewrite produces. Once the suffix test has
      passed, the unsigned expression of the source cannot underflow, and
      it is zero exactly when the whole term is `kanaIn` and `kanaOut` is
      empty. */
  function RewrittenLength(term: string, kanaIn: string, kanaOut: string): (n: nat)
    requires EndsWith(term, kanaIn)
    ensures n == 0 <==> term == kanaIn && kanaOut == []
  {
    assert |term| == |kanaIn| ==> term == term[|term| - |kanaIn|..];
    |term| - |kanaIn| + |kanaOut|
  }

  /** Candidate `c` is rewritten by variant `v`: the three tests of the source
      pass (gate, suffix, non-empty result). */
  predicate Applies(c: DeinflectResult, v: NormalizedReasonInfo)
  {
    && PassesGate(c.rules, v.bitsIn)
    && EndsWith(c.term, v.kanaIn)
    && RewrittenLength(c.term, v.kanaIn, v.kanaOut) > 0
  }

  /** The candidate variant `v` of `reason` makes from `c`. */
  function Rewrite(c: DeinflectResult, reason: string, v: NormalizedReasonInfo): DeinflectResult
    requires EndsWith(c.term, v.kanaIn)
  {
    DeinflectResult(c.term[..|c.term| - |v.kanaIn|] + v.kanaOut, v.bitsOut, [reason] + c.reasons)
  }

  /** The candidates the variants of one reason make from `c`, in order. */
  function ExpandReason(c: DeinflectResult, reason: string, variants: seq<NormalizedReasonInfo>): seq<DeinflectResult>
  {
    if variants == [] then []
    else
      var v := variants[|variants| - 1];
      ExpandReason(c, reason, variants[..|variants| - 1]) + (if Applies(c, v) then [Rewrite(c, reason, v)] else [])
  }

  /** The candidates the whole table makes from `c`, reasons visited in `order`. */
  function Expand(c: DeinflectResult, normalized: NormalizedReasons, order: seq<string>): seq<DeinflectResult>
    requires forall reason | reason in order :: reason in normalized
  {
    if order == [] then []
    else
      var reason := order[|order| - 1];
      Expand(c, normalized, order[..|order| - 1]) + ExpandReason(c, reason, normalized[reason])
  }

  /** The number of variants (counted with repeats across reasons) whose
      `kanaIn` ends `word` and whose rewrite of `word` is non-empty. */
  function CountMatching(word: string, variants: seq<NormalizedReasonInfo>): nat
  {
    if variants == [] then 0
    else
      var v := variants[0];
      (if EndsWith(word, v.kanaIn) && |word| - |v.kanaIn| + |v.kanaOut| > 0 then 1 else 0)
        + CountMatching(word, variants[1..])
  }

  function CountMatchingTable(word: string, normalized: NormalizedReasons, order: seq<string>): nat
    requires forall reason | reason in order :: reason in normalized
  {
    if order == [] then 0
    else CountMatching(word, normalized[order[0]]) + CountMatchingTable(word, normalized, order[1..])
  }

  /** `Deinflector::deinflect`. The range of the outer loop is evaluated
      once, when `results` holds only the seed, so only the seed is ever
      rewritten: every other result is one variant applied to the word. */
  method Deinflect(d: Deinflector, word: string) returns (results: seq<DeinflectResult>)
    requires Valid(d)
    ensures results == [Seed(word)] + Expand(Seed(word), d.normalizedReasons, d.order)
    ensures |results| == 1 + CountMatchingTable(word, d.normalizedReasons, d.order)
    ensures results[0] == Seed(word)
    ensures forall r | r in results[1..] ::
              exists reason, v :: reason in d.order && v in d.normalizedReasons[reason]
                                  && Applies(Seed(word), v) && r == Rewrite(Seed(word), reason, v)
    ensures forall reason, v | reason in d.order && v in d.normalizedReasons[reason] && Applies(Seed(word), v) ::
              Rewrite(Seed(word), reason, v) in results[1..]
    ensures forall r | r in results[1..] :: |r.reasons| == 1 && r.term != []
  {
    results := [Seed(word)];
    for i := 0 to |results|
      invariant i == 0 ==> results == [Seed(word)]
      invariant i == 1 ==> results == [Seed(word)] + Expand(Seed(word), d.normalizedReasons, d.order)
    {
      var curr := results[i];
      results := PushRewrites(d, curr, results);
    }
    assert results[1..] == Expand(Seed(word), d.normalizedReasons, d.order);
    ExpandSeedFacts(word, d.normalizedReasons, d.order);
  }

  /** The body of the outer loop of `Deinflect`: try every variant of every
      reason, in the map's order, on `curr`, and append each rewrite that
      passes to `results`. */
  method PushRewrites(d: Deinflector, curr: DeinflectResult, results: seq<DeinflectResult>)
    returns (extended: seq<DeinflectResult>)
    requires Valid(d)
    ensures extended == results + Expand(curr, d.normalizedReasons, d.order)
  {
    extended := results;
    for j := 0 to |d.order|
      invariant extended == results + Expand(curr, d.normalizedReasons, d.order[..j])
    {
      var reason := d.order[j];
      ghost var before := extended;
      extended := PushVariantRewrites(curr, reason, d.normalizedReasons[reason], extended);
      ExpandStep(curr, d.normalizedReasons, d.order, j, results, before, extended);
    }
    assert d.order[..|d.order|] == d.order;
  }

  /** The skip test of the innermost loop of `Deinflect`, as the source writes
      it: the gate fails, or the suffix does not match, or the rewrite would be
      empty. `||` short-circuits, so the length is taken only once the suffix
      has matched. */
  predicate Skips(c: DeinflectResult, v: NormalizedReasonInfo)
  {
    (c.rules != 0 && c.rules & v.bitsIn == 0)
    || !EndsWith(c.term, v.kanaIn)
    || |c.term| - |v.kanaIn| + |v.kanaOut| <= 0
  }

  /** The source's skip test rejects a variant exactly when one of the three
      tests of `Applies` fails. */
  lemma SkipsExactlyWhenNotApplies(c: DeinflectResult, v: NormalizedReasonInfo)
    ensures Skips(c, v) <==> !Applies(c, v)
  {
  }

  /** The innermost loop of `Deinflect`: try the variants of one reason on
      `curr` with the source's skip test, appending each rewrite. */
  method PushVariantRewrites(curr: DeinflectResult, reason: string, variants: seq<NormalizedReasonInfo>,
                             results: seq<DeinflectResult>)
    returns (extended: seq<DeinflectResult>)
    ensures extended == results + ExpandReason(curr, reason, variants)
  {
    extended := results;
    for m := 0 to |variants|
      invariant extended == results + ExpandReason(curr, reason, variants[..m])
    {
      var v := variants[m];
      if Skips(curr, v) {
        SkipVariantStep(curr, reason, variants, m, results, extended);
        continue;
      }
      var rsns := [reason] + curr.reasons;
      var newRes := DeinflectResult(curr.term[..|curr.term| - |v.kanaIn|] + v.kanaOut, v.bitsOut, rsns);
      PushVariantStep(curr, reason, variants, m, results, extended, newRes);
      extended := extended + [newRes];
    }
    assert variants[..|variants|] == variants;
  }

  /** One more variant of a reason that the source's skip test rejects: the
      expansion stays as it was. */
  lemma SkipVariantStep(c: DeinflectResult, reason: string, variants: seq<NormalizedReasonInfo>, m: nat,
                        results: seq<DeinflectResult>, before: seq<DeinflectResult>)
    requires m < |variants|
    requires before == results + ExpandReason(c, reason, variants[..m])
    requires Skips(c, variants[m])
    ensures before == results + ExpandReason(c, reason, variants[..m + 1])
  {
    SkipsExactlyWhenNotApplies(c, variants[m]);
    assert variants[..m + 1][..m] == variants[..m];
  }

  /** One more variant of a reason that passes the source's skip test: the
      expansion grows by the candidate the loop builds, which is the rewrite. */
  lemma PushVariantStep(c: DeinflectResult, reason: string, variants: seq<NormalizedReasonInfo>, m: nat,
                        results: seq<DeinflectResult>, before: seq<DeinflectResult>, newRes: DeinflectResult)
    requires m < |variants|
    requires before == results + ExpandReason(c, reason, variants[..m])
    requires !Skips(c, variants[m])
    requires var v := variants[m];
             newRes == DeinflectResult(c.term[..|c.term| - |v.kanaIn|] + v.kanaOut, v.bitsOut, [reason] + c.reasons)
    ensures newRes == Rewrite(c, reason, variants[m])
    ensures before + [newRes] == results + ExpandReason(c, reason, variants[..m + 1])
  {
    SkipsExactlyWhenNotApplies(c, variants[m]);
    assert variants[..m + 1][..m] == variants[..m];
  }

  /** One more reason of the table: the loop step of `PushRewrites`. */
  lemma ExpandStep(c: DeinflectResult, normalized: NormalizedReasons, order: seq<string>, j: nat,
                   results: seq<DeinflectResult>, before: seq<DeinflectResult>, after: seq<DeinflectResult>)
    requires forall reason | reason in order :: reason in normalized
    requires j < |order|
    requires before == results + Expand(c, normalized, order[..j])
    requires after == before + ExpandReason(c, order[j], normalized[order[j]])
    ensures after == results + Expand(c, normalized, order[..j + 1])
  {
    assert order[..j + 1][..j] == order[..j];
  }

  // ---------------------------------------------------------------------------
  // Properties of one expansion step
  // ---------------------------------------------------------------------------

  /** Every candidate the variants of a reason make comes from one of them. */
  lemma {:induction false} ExpandReasonSound(c: DeinflectResult, reason: string, variants: seq<NormalizedReasonInfo>, r: DeinflectResult)
    requires r in ExpandReason(c, reason, variants)
    ensures exists v :: v in variants && Applies(c, v) && r == Rewrite(c, reason, v)
  {
    var n := |variants| - 1;
    var v := variants[n];
    if r in ExpandReason(c, reason, variants[..n]) {
      ExpandReasonSound(c, reason, variants[..n], r);
      var w :| w in variants[..n] && Applies(c, w) && r == Rewrite(c, reason, w);
      assert w in variants;
    } else {
      assert v in variants;
    }
  }

  /** Soundness: every candidate made from `c` comes from one variant of one
      reason whose three tests `c` passes. */
  lemma {:induction false} ExpandSound(c: DeinflectResult, normalized: NormalizedReasons, order: seq<string>, r: DeinflectResult)
    requires forall reason | reason in order :: reason in normalized
    requires r in Expand(c, normalized, order)
    ensures exists reason, v :: reason in order && v in normalized[reason] && Applies(c, v) && r == Rewrite(c, reason, v)
  {
    var n := |order| - 1;
    var last := order[n];
    if r in Expand(c, normalized, order[..n]) {
      ExpandSound(c, normalized, order[..n], r);
      var reason, v :| reason in order[..n] && v in normalized[reason] && Applies(c, v) && r == Rewrite(c, reason, v);
      assert reason in order;
    } else {
      ExpandReasonSound(c, last, normalized[last], r);
      assert last in order;
    }
  }

  lemma {:induction false} ExpandReasonComplete(c: DeinflectResult, reason: string, variants: seq<NormalizedReasonInfo>, v: NormalizedReasonInfo)
    requires v in variants && Applies(c, v)
    ensures Rewrite(c, reason, v) in ExpandReason(c, reason, variants)
  {
    var n := |variants| - 1;
    if variants[n] != v {
      assert v in variants[..n];
      ExpandReasonComplete(c, reason, variants[..n], v);
    }
  }

  /** Completeness: every variant whose three tests `c` passes contributes
      its rewrite of `c`. */
  lemma {:induction false} ExpandComplete(c: DeinflectResult, normalized: NormalizedReasons, order: seq<string>,
                                          reason: string, v: NormalizedReasonInfo)
    requires forall k | k in order :: k in normalized
    requires reason in order && v in normalized[reason] && Applies(c, v)
    ensures Rewrite(c, reason, v) in Expand(c, normalized, order)
  {
    var n := |order| - 1;
    if order[n] == reason {
      ExpandReasonComplete(c, reason, normalized[reason], v);
    } else {
      assert reason in order[..n];
      ExpandComplete(c, normalized, order[..n], reason, v);
    }
  }

  /** A rewrite of the seed never yields an empty term and carries exactly
      one reason, the label of the variant used. */
  lemma ExpandSeedShape(word: string, normalized: NormalizedReasons, order: seq<string>, r: DeinflectResult)
    requires forall reason | reason in order :: reason in normalized
    requires r in Expand(Seed(word), normalized, order)
    ensures r.term != [] && |r.reasons| == 1 && r.reasons[0] in order
  {
    ExpandSound(Seed(word), normalized, order, r);
    var reason, v :| reason in order && v in normalized[reason] && Applies(Seed(word), v) && r == Rewrite(Seed(word), reason, v);
    assert |r.term| == RewrittenLength(word, v.kanaIn, v.kanaOut);
  }

  lemma {:induction false} ExpandReasonSeedCount(word: string, reason: string, variants: seq<NormalizedReasonInfo>)
    ensures |ExpandReason(Seed(word), reason, variants)| == CountMatching(word, variants)
  {
    if variants != [] {
      var n := |variants| - 1;
      ExpandReasonSeedCount(word, reason, variants[..n]);
      CountMatchingSnoc(word, variants[..n], variants[n]);
      assert variants[..n] + [variants[n]] == variants;
    }
  }

  lemma {:induction false} CountMatchingSnoc(word: string, variants: seq<NormalizedReasonInfo>, v: NormalizedReasonInfo)
    ensures CountMatching(word, variants + [v])
            == CountMatching(word, variants) + (if EndsWith(word, v.kanaIn) && |word| - |v.kanaIn| + |v.kanaOut| > 0 then 1 else 0)
  {
    if variants != [] {
      assert (variants + [v])[1..] == variants[1..] + [v];
      CountMatchingSnoc(word, variants[1..], v);
    }
  }

  lemma {:induction false} CountMatchingTableSnoc(word: string, normalized: NormalizedReasons, order: seq<string>, reason: string)
    requires forall k | k in order :: k in normalized
    requires reason in normalized
    ensures CountMatchingTable(word, normalized, order + [reason])
            == CountMatchingTable(word, normalized, order) + CountMatching(word, normalized[reason])
  {
    if order != [] {
      assert (order + [reason])[1..] == order[1..] + [reason];
      CountMatchingTableSnoc(word, normalized, order[1..], reason);
    }
  }

  /** One expansion of the seed makes exactly one candidate per variant whose
      `kanaIn` ends the word and whose rewrite is non-empty: the gate never
      rejects anything, since the seed is unconstrained. */
  lemma {:induction false} ExpandSeedCount(word: string, normalized: NormalizedReasons, order: seq<string>)
    requires forall reason | reason in order :: reason in normalized
    ensures |Expand(Seed(word), normalized, order)| == CountMatchingTable(word, normalized, order)
  {
    if order != [] {
      var n := |order| - 1;
      ExpandSeedCount(word, normalized, order[..n]);
      ExpandReasonSeedCount(word, order[n], normalized[order[n]]);
      CountMatchingTableSnoc(word, normalized, order[..n], order[n]);
      assert order[..n] + [order[n]] == order;
    }
  }

  /** What one expansion of the seed makes: exactly the rewrites, by the
      variants whose tests the word passes, one per such variant, each a
      non-empty term with a single reason. */
  lemma ExpandSeedFacts(word: string, normalized: NormalizedReasons, order: seq<string>)
    requires forall reason | reason in order :: reason in normalized
    ensures |Expand(Seed(word), normalized, order)| == CountMatchingTable(word, normalized, order)
    ensures forall r | r in Expand(Seed(word), normalized, order) ::
              exists reason, v :: reason in order && v in normalized[reason]
                                  && Applies(Seed(word), v) && r == Rewrite(Seed(word), reason, v)
    ensures forall reason, v | reason in order && v in normalized[reason] && Applies(Seed(word), v) ::
              Rewrite(Seed(word), reason, v) in Expand(Seed(word), normalized, order)
    ensures forall r | r in Expand(Seed(word), normalized, order) :: |r.reasons| == 1 && r.term != []
  {
    var derived := Expand(Seed(word), normalized, order);
    ExpandSeedCount(word, normalized, order);
    forall r | r in derived
      ensures exists reason, v :: reason in order && v in normalized[reason]
                                  && Applies(Seed(word), v) && r == Rewrite(Seed(word), reason, v)
      ensures |r.reasons| == 1 && r.term != []
    {
      ExpandSound(Seed(word), normalized, order, r);
      ExpandSeedShape(word, normalized, order, r);
    }
    forall reason, v | reason in order && v in normalized[reason] && Applies(Seed(word), v)
      ensures Rewrite(Seed(word), reason, v) in derived
    {
      ExpandComplete(Seed(word), normalized, order, reason, v);
    }
  }

  /** The gate in action: a constrained candidate is never rewritten by a
      variant that shares none of its categories. */
  lemma ExpandRespectsGate(c: DeinflectResult, normalized: NormalizedReasons, order: seq<string>, r: DeinflectResult)
    requires forall reason | reason in order :: reason in normalized
    requires c.rules != 0
    requires r in Expand(c, normalized, order)
    ensures exists reason, v :: reason in order && v in normalized[reason] && EndsWith(c.term, v.kanaIn)
                                && c.rules & v.bitsIn != 0 && r == Rewrite(c, reason, v)
  {
    ExpandSound(c, normalized, order, r);
  }
}
