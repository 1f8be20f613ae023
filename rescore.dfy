/** Per-pass configuration of the rescoring, summary and pruning stages of
    the decoder pipeline. Pass 1 reads an option under its plain name, pass
    p > 1 under the name followed by p; weights, intersection strategy and
    pop limit fall back to the latest earlier pass that sets them. */
module Rescore {
  import opened Wrappers
  import opened Decimal
  import opened WeightsCaching

  /** A parsed option value; floating-point options are kept as reals. */
  datatype OptValue = Text(text: string) | Texts(texts: seq<string>) | Number(number: int) | Real(amount: real)

  /** The parsed command line: option name to value. */
  type VarMap = map<string, OptValue>

  /** The option name used by pass `pass`. */
  function PerPassOptionName(opt: string, pass: int): (r: string)
    ensures pass == 1 ==> r == opt
    ensures pass != 1 ==> |r| > |opt| && r[..|opt|] == opt && ParseInt(r[|opt|..]) == Some(pass)
  {
    if pass == 1 then opt
    else
      IntRoundTrip(pass);
      assert (opt + IntToString(pass))[|opt|..] == IntToString(pass);
      opt + IntToString(pass)
  }

  /** Different passes never share an option name. */
  lemma PerPassOptionNameInjective(opt: string, p: int, q: int)
    requires PerPassOptionName(opt, p) == PerPassOptionName(opt, q)
    ensures p == q
  {
    var r := PerPassOptionName(opt, p);
    if p != 1 && q != 1 {
      assert Some(p) == ParseInt(r[|opt|..]) == Some(q);
    }
  }

  /** The pass whose setting applies: counting down from `pass`, the first
      pass above 1 whose name is set, else pass 1 (or `pass` itself when it
      is not above 1). */
  function LastAvailablePass(opt: string, pass: int, conf: VarMap): int
    decreases pass
  {
    if pass > 1 && PerPassOptionName(opt, pass) !in conf then LastAvailablePass(opt, pass - 1, conf) else pass
  }

  /** The pass chosen is the largest one up to `pass` that sets the option,
      and pass 1 when no later one does. */
  lemma {:induction false} LastAvailablePassIsLargest(opt: string, pass: int, conf: VarMap)
    ensures var p := LastAvailablePass(opt, pass, conf);
      p <= pass && (pass <= 1 ==> p == pass) && (pass > 1 ==> p >= 1) &&
      (p > 1 ==> PerPassOptionName(opt, p) in conf) &&
      (forall q :: p < q <= pass ==> PerPassOptionName(opt, q) !in conf)
    decreases pass
  {
    if pass > 1 && PerPassOptionName(opt, pass) !in conf {
      LastAvailablePassIsLargest(opt, pass - 1, conf);
    }
  }

  /** The search loop: step down while the pass is above 1 and its name is
      not set. */
  method FindLastAvailablePass(opt: string, pass: int, conf: VarMap) returns (p: int)
    ensures p == LastAvailablePass(opt, pass, conf)
  {
    p := pass;
    while p > 1 && PerPassOptionName(opt, p) !in conf
      invariant LastAvailablePass(opt, p, conf) == LastAvailablePass(opt, pass, conf)
      decreases p
    {
      p := p - 1;
    }
  }

  /** Reading a name that is not set fails. */
  function Lookup(conf: VarMap, key: string): (r: Result<OptValue, string>)
    ensures r.Success? <==> key in conf
    ensures r.Success? ==> r.value == conf[key]
  {
    if key in conf then Success(conf[key]) else Failure("no value for option " + key)
  }

  /** The value pass `pass` uses, falling back to earlier passes. */
  function LastAvailableOption(opt: string, pass: int, conf: VarMap): Result<OptValue, string>
  {
    Lookup(conf, PerPassOptionName(opt, LastAvailablePass(opt, pass, conf)))
  }

  /** The value set for exactly pass `pass`. */
  function ExactOption(opt: string, pass: int, conf: VarMap): Result<OptValue, string>
  {
    Lookup(conf, PerPassOptionName(opt, pass))
  }

  method FindLastAvailableOption(opt: string, pass: int, conf: VarMap) returns (r: Result<OptValue, string>)
    ensures r == LastAvailableOption(opt, pass, conf)
  {
    var p := FindLastAvailablePass(opt, pass, conf);
    var key := PerPassOptionName(opt, p);
    if key in conf {
      r := Success(conf[key]);
    } else {
      r := Failure("no value for option " + key);
    }
  }

  /** A fallback lookup succeeds exactly when the pass itself, or some pass
      between 1 and it, sets the option; its value is then the latest one. */
  lemma LastAvailableOptionFound(opt: string, pass: int, conf: VarMap)
    requires pass >= 1
    ensures LastAvailableOption(opt, pass, conf).Success? <==> exists q :: 1 <= q <= pass && PerPassOptionName(opt, q) in conf
    ensures forall q :: 1 <= q <= pass && PerPassOptionName(opt, q) in conf ==>
      LastAvailablePass(opt, pass, conf) >= q && LastAvailableOption(opt, pass, conf).Success?
  {
    LastAvailablePassIsLargest(opt, pass, conf);
    var p := LastAvailablePass(opt, pass, conf);
    if LastAvailableOption(opt, pass, conf).Success? {
      assert 1 <= p <= pass && PerPassOptionName(opt, p) in conf;
    }
    forall q | 1 <= q <= pass && PerPassOptionName(opt, q) in conf
      ensures p >= q && LastAvailableOption(opt, pass, conf).Success?
    {
      if p == 1 {
        assert q == 1;
      }
    }
  }

  /** The typed reads: a value of another type fails. */
  function AsText(r: Result<OptValue, string>): Result<string, string>
  {
    if r.Failure? then Failure(r.error) else if r.value.Text? then Success(r.value.text) else Failure("option is not a string")
  }

  function AsTexts(r: Result<OptValue, string>): Result<seq<string>, string>
  {
    if r.Failure? then Failure(r.error) else if r.value.Texts? then Success(r.value.texts) else Failure("option is not a list of strings")
  }

  function AsNumber(r: Result<OptValue, string>): Result<int, string>
  {
    if r.Failure? then Failure(r.error) else if r.value.Number? then Success(r.value.number) else Failure("option is not an integer")
  }

  function AsReal(r: Result<OptValue, string>): Result<real, string>
  {
    if r.Failure? then Failure(r.error) else if r.value.Real? then Success(r.value.amount) else Failure("option is not a number")
  }

  /** A pass rescores when it names feature functions, or, after pass 1,
      when it names a weights file. */
  predicate ShouldRescore(conf: VarMap, pass: int)
  {
    PerPassOptionName("feature_function", pass) in conf || (pass > 1 && PerPassOptionName("weights", pass) in conf)
  }

  /** A pass computes a summary feature when it rescores and names one. */
  predicate ShouldSummarize(conf: VarMap, pass: int)
  {
    ShouldRescore(conf, pass) && PerPassOptionName("summary_feature", pass) in conf
  }

  /** A pass prunes when it sets a beam or a density threshold. */
  predicate ShouldPrune(conf: VarMap, pass: int)
  {
    PerPassOptionName("beam_prune", pass) in conf || PerPassOptionName("density_prune", pass) in conf
  }

  /** Pass 1 rescores only for feature functions: the initial weights
      alone do not trigger it, while a later pass's own weights do. */
  lemma RescoreTriggers(conf: VarMap, pass: int)
    ensures pass == 1 ==> (ShouldRescore(conf, pass) <==> "feature_function" in conf)
    ensures pass > 1 && PerPassOptionName("weights", pass) in conf ==> ShouldRescore(conf, pass)
    ensures ShouldSummarize(conf, pass) ==> ShouldRescore(conf, pass) && PerPassOptionName("summary_feature", pass) in conf
  {
  }

  /** ASCII lower-casing of the intersection strategy name. */
  function Lowercase(s: string): (r: string)
    ensures |r| == |s|
    ensures forall k :: 0 <= k < |s| ==> r[k] == if 'A' <= s[k] <= 'Z' then (s[k] as int + 32) as char else s[k]
  {
    if s == [] then [] else [if 'A' <= s[0] <= 'Z' then (s[0] as int + 32) as char else s[0]] + Lowercase(s[1..])
  }

  /** The intersection algorithm: 1 (full intersection) for "full", 2 and 3
      for the two fast cube-pruning variants; for any other strategy,
      including "cube_pruning", 1 when some feature function is stateful
      and 0 otherwise. */
  function Algorithm(strategy: string, hasStateful: bool): int
  {
    var palg := if hasStateful then 1 else 0;
    if strategy == "cube_pruning" then (if hasStateful then 1 else 0)
    else if strategy == "full" then 1
    else if strategy == "fast_cube_pruning" then 2
    else if strategy == "fast_cube_pruning_2" then 3
    else palg
  }

  /** Each algorithm number has one meaning: 2 and 3 only for their fast
      cube-pruning strategy, 0 only when nothing is stateful and no other
      strategy was asked for. */
  lemma AlgorithmCases(strategy: string, hasStateful: bool)
    ensures 0 <= Algorithm(strategy, hasStateful) <= 3
    ensures Algorithm(strategy, hasStateful) == 2 <==> strategy == "fast_cube_pruning"
    ensures Algorithm(strategy, hasStateful) == 3 <==> strategy == "fast_cube_pruning_2"
    ensures Algorithm(strategy, hasStateful) == 0 <==>
      !hasStateful && strategy != "full" && strategy != "fast_cube_pruning" && strategy != "fast_cube_pruning_2"
  {
  }

  /** Some feature function carries state between nodes. */
  predicate AnyStateful(ffs: seq<string>, isStateful: string -> bool)
  {
    exists k :: 0 <= k < |ffs| && isStateful(ffs[k])
  }

  /** The rescorer constructor's loop: create each feature function in
      order, noting whether any is stateful. */
  method CreateFeatureFunctions(names: seq<string>, isStateful: string -> bool) returns (ffs: seq<string>, hasStateful: bool)
    ensures ffs == names
    ensures hasStateful <==> AnyStateful(names, isStateful)
  {
    ffs := [];
    hasStateful := false;
    var k := 0;
    while k < |names|
      invariant 0 <= k <= |names| && ffs == names[..k]
      invariant hasStateful <==> AnyStateful(names[..k], isStateful)
    {
      hasStateful := hasStateful || isStateful(names[k]);
      ffs := ffs + [names[k]];
      k := k + 1;
      assert names[..k] == names[..k - 1] + [names[k - 1]];
    }
    assert names[..k] == names;
  }

  /** A configured rescoring stage: weights, feature functions and the
      intersection configuration. */
  class Rescorer {
    const weights: WeightVector
    const ffs: seq<string>
    const palg: int
    const popLimit: int

    constructor (weights: WeightVector, featureFunctions: seq<string>, strategy: string, popLimit: int, isStateful: string -> bool)
      ensures this.weights == weights && ffs == featureFunctions && this.popLimit == popLimit
      ensures palg == Algorithm(strategy, AnyStateful(featureFunctions, isStateful))
    {
      var created, hasStateful := CreateFeatureFunctions(featureFunctions, isStateful);
      this.weights := weights;
      ffs := created;
      palg := Algorithm(strategy, hasStateful);
      this.popLimit := popLimit;
    }
  }

  /** What a rescoring pass is configured with. */
  datatype RescoreOptions = RescoreOptions(weightsPath: string, strategy: string, popLimit: int, featureFunctions: seq<string>)

  /** Rescoring options with the feature functions read from the key whose
      presence is tested, `feature_function` for the pass. */
  function RescoreOptionsFor(conf: VarMap, pass: int): Result<RescoreOptions, string>
  {
    ReadRescoreOptions(conf, pass, "feature_function")
  }

  /** Rescoring options as the constructor reads them: presence is tested
      under `feature_function` but the list is read under
      `feature_functions`. */
  function RescoreOptionsAsWritten(conf: VarMap, pass: int): Result<RescoreOptions, string>
  {
    ReadRescoreOptions(conf, pass, "feature_functions")
  }

  function ReadRescoreOptions(conf: VarMap, pass: int, listKey: string): Result<RescoreOptions, string>
  {
    var hasFf := PerPassOptionName("feature_function", pass) in conf;
    var w := AsText(LastAvailableOption("weights", pass, conf));
    var s := AsText(LastAvailableOption("intersection_strategy", pass, conf));
    var k := AsNumber(LastAvailableOption("cubepruning_pop_limit", pass, conf));
    var f := if hasFf then AsTexts(ExactOption(listKey, pass, conf)) else Success([]);
    if w.Failure? then Failure(w.error)
    else if s.Failure? then Failure(s.error)
    else if k.Failure? then Failure(k.error)
    else if f.Failure? then Failure(f.error)
    else Success(RescoreOptions(w.value, Lowercase(s.value), k.value, f.value))
  }

  /** The corrected options: weights, strategy and pop limit come from the
      latest pass that sets them; feature functions are exactly the ones
      this pass names, never inherited from an earlier pass. */
  lemma RescoreOptionsSources(conf: VarMap, pass: int)
    requires RescoreOptionsFor(conf, pass).Success?
    ensures var o := RescoreOptionsFor(conf, pass).value;
      o.weightsPath == LastAvailableOption("weights", pass, conf).value.text &&
      o.strategy == Lowercase(LastAvailableOption("intersection_strategy", pass, conf).value.text) &&
      o.popLimit == LastAvailableOption("cubepruning_pop_limit", pass, conf).value.number &&
      o.featureFunctions == if PerPassOptionName("feature_function", pass) in conf
        then conf[PerPassOptionName("feature_function", pass)].texts else []
  {
  }

  /** As written, a pass that names feature functions under the registered
      key `feature_function` cannot be configured unless an unregistered
      `feature_functions` key is also set. */
  lemma RescoreOptionsAsWrittenFails(conf: VarMap, pass: int)
    requires PerPassOptionName("feature_function", pass) in conf
    requires PerPassOptionName("feature_functions", pass) !in conf
    ensures RescoreOptionsAsWritten(conf, pass).Failure?
  {
  }

  /** The input that shows it: a pass-1 configuration naming one feature
      function is rejected as written and accepted once corrected. */
  lemma RescoreOptionsExample()
    ensures var conf := map["weights" := Text("weights.txt"), "intersection_strategy" := Text("Cube_Pruning"),
                            "cubepruning_pop_limit" := Number(200), "feature_function" := Texts(["WordPenalty"])];
      RescoreOptionsAsWritten(conf, 1).Failure? &&
      RescoreOptionsFor(conf, 1) == Success(RescoreOptions("weights.txt", "cube_pruning", 200, ["WordPenalty"]))
  {
    var conf := map["weights" := Text("weights.txt"), "intersection_strategy" := Text("Cube_Pruning"),
                    "cubepruning_pop_limit" := Number(200), "feature_function" := Texts(["WordPenalty"])];
    assert PerPassOptionName("feature_functions", 1) !in conf;
    RescoreOptionsAsWrittenFails(conf, 1);
    assert LastAvailableOption("weights", 1, conf) == Success(Text("weights.txt"));
    assert LastAvailableOption("intersection_strategy", 1, conf) == Success(Text("Cube_Pruning"));
    assert LastAvailableOption("cubepruning_pop_limit", 1, conf) == Success(Number(200));
    assert ExactOption("feature_function", 1, conf) == Success(Texts(["WordPenalty"]));
    LowercaseExample();
  }

  lemma LowercaseExample()
    ensures Lowercase("Cube_Pruning") == "cube_pruning"
  {
    LowercaseOf("Cube_Pruning", "cube_pruning");
  }

  /** A string is the lower-cased form of another when each of its
      characters is. */
  lemma LowercaseOf(s: string, t: string)
    requires |s| == |t|
    requires forall k :: 0 <= k < |s| ==> t[k] == if 'A' <= s[k] <= 'Z' then (s[k] as int + 32) as char else s[k]
    ensures Lowercase(s) == t
  {
  }

  /** The rescoring stage's constructor: the options as corrected, the
      weights through the cache, then the rescorer. */
  method NewRescorer(conf: VarMap, pass: int, cache: WeightsCache, load: string -> seq<real>, isStateful: string -> bool)
      returns (r: Result<Rescorer, string>)
    modifies cache
    ensures r.Success? <==> RescoreOptionsFor(conf, pass).Success?
    ensures r.Success? ==> var o := RescoreOptionsFor(conf, pass).value;
      o.weightsPath in cache.cache && r.value.weights == cache.cache[o.weightsPath] &&
      r.value.ffs == o.featureFunctions && r.value.popLimit == o.popLimit &&
      r.value.palg == Algorithm(o.strategy, AnyStateful(o.featureFunctions, isStateful))
  {
    var hasFf := PerPassOptionName("feature_function", pass) in conf;
    var wo := FindLastAvailableOption("weights", pass, conf);
    var w := AsText(wo);
    if w.Failure? {
      return Failure(w.error);
    }
    var weights := cache.Get(w.value, load);
    var so := FindLastAvailableOption("intersection_strategy", pass, conf);
    var s := AsText(so);
    if s.Failure? {
      return Failure(s.error);
    }
    var ko := FindLastAvailableOption("cubepruning_pop_limit", pass, conf);
    var k := AsNumber(ko);
    if k.Failure? {
      return Failure(k.error);
    }
    var f: Result<seq<string>, string> := Success([]);
    if hasFf {
      f := AsTexts(ExactOption("feature_function", pass, conf));
    }
    if f.Failure? {
      return Failure(f.error);
    }
    var rescorer := new Rescorer(weights, f.value, Lowercase(s.value), k.value, isStateful);
    r := Success(rescorer);
  }

  /** The summary feature kinds. */
  datatype SummaryFeature = EdgeRisk | NodeRisk | EdgeProb

  /** The summary stage's options: the kind, the feature's name for this
      pass, and the weights file. An unknown kind is an error. */
  datatype SummaryOptions = SummaryOptions(kind: SummaryFeature, feature: string, weightsPath: string)

  function SummaryKind(name: string): Result<SummaryFeature, string>
  {
    if name == "edge_risk" then Success(EdgeRisk)
    else if name == "node_risk" then Success(NodeRisk)
    else if name == "edge_prob" then Success(EdgeProb)
    else Failure("Bad summary_feature_type: " + name)
  }

  function SummaryOptionsFor(conf: VarMap, pass: int): Result<SummaryOptions, string>
  {
    var t := AsText(Lookup(conf, "summary_feature_type"));
    if t.Failure? then Failure(t.error)
    else
      var kind := SummaryKind(t.value);
      var f := AsText(ExactOption("summary_feature", pass, conf));
      var w := AsText(LastAvailableOption("weights", pass, conf));
      if kind.Failure? then Failure(kind.error)
      else if f.Failure? then Failure(f.error)
      else if w.Failure? then Failure(w.error)
      else Success(SummaryOptions(kind.value, f.value, w.value))
  }

  /** The summary stage is set up only with a known kind and a feature named
      for this very pass, so a rescoring pass that sets it up is one that
      should summarize. */
  lemma SummaryOptionsNeedFeature(conf: VarMap, pass: int)
    requires SummaryOptionsFor(conf, pass).Success?
    ensures PerPassOptionName("summary_feature", pass) in conf
    ensures conf["summary_feature_type"].text in {"edge_risk", "node_risk", "edge_prob"}
    ensures ShouldRescore(conf, pass) ==> ShouldSummarize(conf, pass)
  {
  }

  /** The pruning stage's options: both thresholds, 0 when not set for this
      pass, and whether they scale with the input length. */
  datatype PruneOptions = PruneOptions(beamPrune: real, densityPrune: real, scale: bool)

  function PruneOptionsFor(conf: VarMap, pass: int): Result<PruneOptions, string>
  {
    var hasBp := PerPassOptionName("beam_prune", pass) in conf;
    var hasDp := PerPassOptionName("density_prune", pass) in conf;
    var bp := if hasBp then AsReal(ExactOption("beam_prune", pass, conf)) else Success(0.0);
    var dp := if hasDp then AsReal(ExactOption("density_prune", pass, conf)) else Success(0.0);
    if bp.Failure? then Failure(bp.error)
    else if dp.Failure? then Failure(dp.error)
    else Success(PruneOptions(bp.value, dp.value, "scale_prune_srclen" in conf))
  }

  /** An unset threshold is 0, a set one is the pass's own value; a pass
      that should not prune has both thresholds 0. */
  lemma PruneDefaults(conf: VarMap, pass: int)
    ensures var r := PruneOptionsFor(conf, pass);
      r.Success? ==>
        (r.value.beamPrune == if PerPassOptionName("beam_prune", pass) in conf then conf[PerPassOptionName("beam_prune", pass)].amount else 0.0) &&
        (r.value.densityPrune == if PerPassOptionName("density_prune", pass) in conf then conf[PerPassOptionName("density_prune", pass)].amount else 0.0)
    ensures !ShouldPrune(conf, pass) ==> PruneOptionsFor(conf, pass) == Success(PruneOptions(0.0, 0.0, "scale_prune_srclen" in conf))
  {
  }
}
