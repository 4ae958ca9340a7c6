/**
 The multi-step, breadth-first reading of deinflection, set beside what
 `Deinflect` computes.

 Read as a breadth-first traversal, the loop of `Deinflect` over its growing
 result list would keep rewriting every new candidate: the result list would
 be layer 0 (the word), then layer 1 (one rewrite), then layer 2 (two
 rewrites), and so on, and the category gate would constrain every layer
 after the first. The loop's range is fixed when it starts, so `Deinflect`
 returns layers 0 and 1 only. This module defines the layers and proves both
 facts, with a small rule table on which they differ.
 */
module DeinflectClosure {
  import opened Deinflect

  /** Every candidate of `cs` expanded once by the whole table, in order. */
  function Step(cs: seq<DeinflectResult>, normalized: NormalizedReasons, order: seq<string>): seq<DeinflectResult>
    requires forall reason | reason in order :: reason in normalized
  {
    if cs == [] then []
    else Step(cs[..|cs| - 1], normalized, order) + Expand(cs[|cs| - 1], normalized, order)
  }

  /** The candidates exactly `k` rewrites away from `word`, in breadth-first order. */
  function Layer(word: string, normalized: NormalizedReasons, order: seq<string>, k: nat): seq<DeinflectResult>
    requires forall reason | reason in order :: reason in normalized
  {
    if k == 0 then [Seed(word)]
    else Step(Layer(word, normalized, order, k - 1), normalized, order)
  }

  /** Layers 0 to `k`, one after the other: the result list a breadth-first
      traversal has built once it has finished layer `k`. */
  function Closure(word: string, normalized: NormalizedReasons, order: seq<string>, k: nat): seq<DeinflectResult>
    requires forall reason | reason in order :: reason in normalized
  {
    if k == 0 then Layer(word, normalized, order, 0)
    else Closure(word, normalized, order, k - 1) + Layer(word, normalized, order, k)
  }

  /** What `Deinflect` returns is the closure cut off after the first layer. */
  lemma DeinflectIsFirstLayer(d: Deinflector, word: string)
    requires Valid(d)
    ensures [Seed(word)] + Expand(Seed(word), d.normalizedReasons, d.order)
            == Closure(word, d.normalizedReasons, d.order, 1)
  {
    var normalized, order := d.normalizedReasons, d.order;
    assert [Seed(word)][..0] == [];
    assert Step([Seed(word)], normalized, order) == Expand(Seed(word), normalized, order);
  }

  /** Every candidate of a step comes from expanding one candidate it was
      given; `c` is that candidate. */
  lemma {:induction false} StepSound(cs: seq<DeinflectResult>, normalized: NormalizedReasons, order: seq<string>, r: DeinflectResult)
    returns (c: DeinflectResult)
    requires forall reason | reason in order :: reason in normalized
    requires r in Step(cs, normalized, order)
    ensures c in cs && r in Expand(c, normalized, order)
  {
    var n := |cs| - 1;
    if r in Step(cs[..n], normalized, order) {
      c := StepSound(cs[..n], normalized, order, r);
      assert c in cs;
    } else {
      c := cs[n];
    }
  }

  /** A candidate of layer `k` carries exactly `k` reasons: one per rewrite. */
  lemma {:induction false} LayerReasons(word: string, normalized: NormalizedReasons, order: seq<string>, k: nat)
    requires forall reason | reason in order :: reason in normalized
    ensures forall r | r in Layer(word, normalized, order, k) :: |r.reasons| == k
  {
    if k > 0 {
      LayerReasons(word, normalized, order, k - 1);
      StepReasons(Layer(word, normalized, order, k - 1), normalized, order, k - 1);
    }
  }

  /** A step adds one reason to candidates that all carry `n`. */
  lemma StepReasons(cs: seq<DeinflectResult>, normalized: NormalizedReasons, order: seq<string>, n: nat)
    requires forall reason | reason in order :: reason in normalized
    requires forall c | c in cs :: |c.reasons| == n
    ensures forall r | r in Step(cs, normalized, order) :: |r.reasons| == n + 1
  {
    forall r | r in Step(cs, normalized, order)
      ensures |r.reasons| == n + 1
    {
      var c := StepSound(cs, normalized, order, r);
      RewriteAddsOneReason(c, normalized, order, r);
    }
  }

  /** An expansion puts one reason in front of those of the candidate expanded. */
  lemma RewriteAddsOneReason(c: DeinflectResult, normalized: NormalizedReasons, order: seq<string>, r: DeinflectResult)
    requires forall reason | reason in order :: reason in normalized
    requires r in Expand(c, normalized, order)
    ensures |r.reasons| == |c.reasons| + 1 && r.reasons[1..] == c.reasons
  {
    ExpandSound(c, normalized, order, r);
  }

  // ---------------------------------------------------------------------------
  // A small rule table on which the two readings differ
  // ---------------------------------------------------------------------------

  /** "negative": an i-adjective form ending in ない comes from an ichidan verb in る. */
  function NegativeRule(): NormalizedReasonInfo
  {
    NormalizedReasonInfo("ない", "る", 0x20, 0x01)
  }

  /** "potential": an ichidan verb ending in られる comes from an ichidan verb in る. */
  function PotentialRule(): NormalizedReasonInfo
  {
    NormalizedReasonInfo("られる", "る", 0x01, 0x01)
  }

  /** A godan-only variant, made up for the example: a godan verb (v5) ending
      in る comes from one ending in う. Its suffix matches every verb in る, so
      only the category gate keeps it off an ichidan candidate. */
  function GodanRule(): NormalizedReasonInfo
  {
    NormalizedReasonInfo("る", "う", 0x02, 0x02)
  }

  function ExampleTable(): NormalizedReasons
  {
    map["negative" := [NegativeRule()], "potential" := [PotentialRule(), GodanRule()]]
  }

  /** The first layer on 食べられない: the negative rule gives 食べられる; the
      potential variants do not match. */
  lemma FirstStepExample()
    ensures Expand(Seed("食べられない"), ExampleTable(), ["negative", "potential"])
            == [DeinflectResult("食べられる", 0x01, ["negative"])]
  {
    var table, order := ExampleTable(), ["negative", "potential"];
    var word := "食べられない";
    var first := DeinflectResult("食べられる", 0x01, ["negative"]);
    assert word[|word| - 2..] == "ない";
    assert word[..|word| - 2] + "る" == first.term;
    assert !EndsWith(word, "られる");
    assert ExpandReason(Seed(word), "negative", [NegativeRule()]) == [first] by {
      assert [NegativeRule()][..0] == [];
      assert Applies(Seed(word), NegativeRule());
      assert Rewrite(Seed(word), "negative", NegativeRule()) == first;
    }
    assert !EndsWith(word, "る");
    assert ExpandReason(Seed(word), "potential", [PotentialRule(), GodanRule()]) == [] by {
      assert [PotentialRule(), GodanRule()][..1] == [PotentialRule()];
      assert [PotentialRule()][..0] == [];
    }
    assert order[..1][..0] == [];
    assert order[..1] == ["negative"];
    assert Expand(Seed(word), table, order[..1]) == [first];
  }

  /** Expanding 食べられる (an ichidan verb): the potential rule gives 食べる.
      The negative rule's suffix does not match. The godan variant's suffix
      matches and its rewrite is non-empty, so the category gate alone stops
      it: an ichidan verb is not a godan verb. */
  lemma SecondStepExample()
    ensures Expand(DeinflectResult("食べられる", 0x01, ["negative"]), ExampleTable(), ["negative", "potential"])
            == [DeinflectResult("食べる", 0x01, ["potential", "negative"])]
    ensures EndsWith("食べられる", GodanRule().kanaIn)
            && RewrittenLength("食べられる", GodanRule().kanaIn, GodanRule().kanaOut) > 0
            && !PassesGate(0x01, GodanRule().bitsIn)
  {
    var table, order := ExampleTable(), ["negative", "potential"];
    var first := DeinflectResult("食べられる", 0x01, ["negative"]);
    var second := DeinflectResult("食べる", 0x01, ["potential", "negative"]);
    var mid := first.term;
    assert mid[|mid| - 3..] == "られる";
    assert mid[..|mid| - 3] + "る" == second.term;
    assert !PassesGate(first.rules, NegativeRule().bitsIn);
    assert ExpandReason(first, "negative", [NegativeRule()]) == [] by {
      assert [NegativeRule()][..0] == [];
    }
    assert mid[|mid| - 1..] == "る";
    assert !PassesGate(first.rules, GodanRule().bitsIn);
    assert ExpandReason(first, "potential", [PotentialRule(), GodanRule()]) == [second] by {
      assert [PotentialRule(), GodanRule()][..1] == [PotentialRule()];
      assert [PotentialRule()][..0] == [];
      assert Applies(first, PotentialRule());
      assert Rewrite(first, "potential", PotentialRule()) == second;
    }
    assert order[..1][..0] == [];
    assert order[..1] == ["negative"];
    assert Expand(first, table, order[..1]) == [];
  }

  /** On 食べられない, `Deinflect` (the closure cut after one layer) stops at
      食べられる, while the second layer of the closure reaches 食べる. */
  lemma TwoStepExample()
    ensures DeinflectResult("食べる", 0x01, ["potential", "negative"])
            in Layer("食べられない", ExampleTable(), ["negative", "potential"], 2)
    ensures forall r | r in Closure("食べられない", ExampleTable(), ["negative", "potential"], 1) :: r.term != "食べる"
  {
    var table, order := ExampleTable(), ["negative", "potential"];
    var word := "食べられない";
    var first := DeinflectResult("食べられる", 0x01, ["negative"]);
    var second := DeinflectResult("食べる", 0x01, ["potential", "negative"]);
    FirstStepExample();
    SecondStepExample();
    assert Layer(word, table, order, 1) == [first] by {
      assert [Seed(word)][..0] == [];
    }
    assert Layer(word, table, order, 2) == [second] by {
      assert [first][..0] == [];
    }
    assert Closure(word, table, order, 1) == [Seed(word), first];
    assert word != second.term && first.term != second.term by {
      assert |word| != |second.term| && |first.term| != |second.term|;
    }
  }
}
