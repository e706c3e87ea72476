/** The policy engine: one ordered rule table, two scanners. */
module Pearl {
  // Floats are reals.

  import opened Lex
  import opened Options
  import opened Sorting

  type Name = Key

  /** An ASCII literal as bytes. */
  function Word(s: string): (k: Name)
    ensures |k| == |s|
  {
    seq(|s|, i requires 0 <= i < |s| => s[i] as int % 256)
  }

  // ----- facts, rules, verdicts -----

  datatype Counterparty = Counterparty(trust: real, familiar: int)

  datatype Facts = Facts(
    hpCur: int, hpMax: int, combatLevel: int, invFree: int, counter: Option<Counterparty>,
    action: Name, busKind: Name, targetCombatLevel: int)

  type Predicate = Facts -> bool

  datatype Effect =
    | Bias(weights: map<Name, real>)
    | Inject(action: Name, args: seq<Name>)
    | Veto(options: seq<Name>, reason: Name)
    | Substitute(action: Name, args: seq<Name>, reason: Name)

  type int8 = i: int | -128 <= i < 128

  datatype Rule = Rule(
    id: Name, when: Option<Predicate>, effect: Effect, salience: int8, confidence: real, origin: Name)

  datatype Table = Table(rules: seq<Rule>, version: Name)

  datatype Verdict =
    | Allow
    | Deny(reason: Name, ruleId: Name)
    | Replace(effect: Effect, reason: Name, ruleId: Name)

  const DEFAULT_FLOOR: real := 0.6
  const DECIDE_MARGIN: real := 0.25

  predicate Fires(r: Rule, f: Facts) {
    r.when.Some? && r.when.value(f)
  }

  // ----- the order of a table -----

  /** Higher salience first, ties by ID. */
  predicate RuleAtMost(a: Rule, b: Rule) {
    a.salience > b.salience || (a.salience == b.salience && !Less(b.id, a.id))
  }

  lemma RulesRank(dom: seq<Rule>)
    ensures Ranks(RuleAtMost, dom)
  {
    forall a, b | a in dom && b in dom ensures RuleAtMost(a, b) || RuleAtMost(b, a) {
      if Less(a.id, b.id) {
        Asymmetric(a.id, b.id);
      }
    }
    forall a, b, c | a in dom && b in dom && c in dom && RuleAtMost(a, b) && RuleAtMost(b, c)
      ensures RuleAtMost(a, c)
    {
      if Less(c.id, a.id) {
        Total(a.id, b.id);
        Total(b.id, c.id);
        if Less(a.id, b.id) {
          Transitive(c.id, a.id, b.id);
        }
      }
    }
  }

  ghost predicate UniqueKeys(rules: seq<Rule>) {
    forall i, j :: 0 <= i < j < |rules| ==> rules[i].salience != rules[j].salience || rules[i].id != rules[j].id
  }

  lemma UniqueUntied(rules: seq<Rule>)
    requires UniqueKeys(rules)
    ensures Untied(RuleAtMost, rules)
  {
    forall i, j | 0 <= i < j < |rules|
      ensures !Tied(RuleAtMost, rules[i], rules[j]) && !Tied(RuleAtMost, rules[j], rules[i])
    {
      Total(rules[i].id, rules[j].id);
    }
  }

  ghost predicate SameRules(s: seq<Rule>, t: seq<Rule>) {
    forall r :: r in s <==> r in t
  }

  /** A table with unique keys is a set of rules: however it is listed, the engine orders it the same way. */
  lemma TableIsASet(s: seq<Rule>, t: seq<Rule>)
    requires UniqueKeys(s) && UniqueKeys(t) && SameRules(s, t)
    ensures SortStable(RuleAtMost, s) == SortStable(RuleAtMost, t)
  {
    RulesRank(s);
    UniqueUntied(s);
    UniqueUntied(t);
    forall x | x in s ensures Ties(RuleAtMost, s, x) == Ties(RuleAtMost, t, x) {
      Irreflexive(x.id);
      UntiedTies(RuleAtMost, s, x);
      UntiedTies(RuleAtMost, t, x);
    }
    SortForgetsOrder(RuleAtMost, s, t, s);
  }

  // ----- the action seam -----

  predicate Speaks(r: Rule, f: Facts) {
    (r.effect.Veto? || r.effect.Substitute?) && Fires(r, f)
  }

  function VerdictOf(r: Rule): Verdict {
    match r.effect
    case Substitute(_, _, reason) => Replace(r.effect, reason, r.id)
    case Veto(_, reason) => Deny(reason, r.id)
    case _ => Allow
  }

  /** The verdict of the first rule that fires with a veto or a substitute; allow if there is none. */
  function FirstVerdict(rules: seq<Rule>, f: Facts): Verdict {
    if rules == [] then Allow
    else if Speaks(rules[0], f) then VerdictOf(rules[0])
    else FirstVerdict(rules[1..], f)
  }

  /** `r` outranks every rule of the table that speaks. */
  ghost predicate SpeaksFirst(r: Rule, rules: seq<Rule>, f: Facts) {
    r in rules && Speaks(r, f) && forall q :: q in rules && Speaks(q, f) ==> RuleAtMost(r, q)
  }

  lemma {:induction false} FirstSpeaker(rules: seq<Rule>, f: Facts) returns (i: nat)
    requires exists r :: r in rules && Speaks(r, f)
    ensures i < |rules| && Speaks(rules[i], f) && FirstVerdict(rules, f) == VerdictOf(rules[i])
    ensures forall k :: 0 <= k < i ==> !Speaks(rules[k], f)
  {
    if Speaks(rules[0], f) {
      i := 0;
    } else {
      var r :| r in rules && Speaks(r, f);
      assert r in rules[1..];
      var k := FirstSpeaker(rules[1..], f);
      i := k + 1;
    }
  }

  lemma {:induction false} NobodySpeaks(rules: seq<Rule>, f: Facts)
    requires forall r :: r in rules ==> !Speaks(r, f)
    ensures FirstVerdict(rules, f) == Allow
  {
    if rules != [] {
      NobodySpeaks(rules[1..], f);
    }
  }

  /** A rule that does not come before position `i` of the sorted table is outranked by what stands there. */
  lemma NotBefore(rules: seq<Rule>, i: nat, q: Rule)
    requires i < |rules| && q in rules && forall k :: 0 <= k < i ==> SortStable(RuleAtMost, rules)[k] != q
    ensures RuleAtMost(SortStable(RuleAtMost, rules)[i], q)
  {
    RulesRank(rules);
    SortedFirst(RuleAtMost, rules, i, q);
  }

  /** The gate answers with the highest-ranked rule that fires with a veto or a substitute, and allows
      exactly when there is none. */
  lemma GateIsHighestRanked(rules: seq<Rule>, f: Facts)
    ensures var v := FirstVerdict(SortStable(RuleAtMost, rules), f);
            if exists r :: r in rules && Speaks(r, f)
              then exists r :: SpeaksFirst(r, rules, f) && v == VerdictOf(r)
              else v == Allow
  {
    var sorted := SortStable(RuleAtMost, rules);
    SortMembers(RuleAtMost, rules);
    if r :| r in rules && Speaks(r, f) {
      assert r in sorted;
      var i := FirstSpeaker(sorted, f);
      var first := sorted[i];
      assert first in sorted;
      forall q | q in rules && Speaks(q, f) ensures RuleAtMost(first, q) {
        NotBefore(rules, i, q);
      }
      assert SpeaksFirst(first, rules, f);
    } else {
      NobodySpeaks(sorted, f);
    }
  }

  /** What each answer means: allowed exactly if nobody speaks; denied with the reason of a veto, or replaced
      by the effect of a substitute, of the rule that outranks all others that speak. */
  lemma GateMeans(rules: seq<Rule>, f: Facts)
    ensures var v := FirstVerdict(SortStable(RuleAtMost, rules), f);
            && (v.Allow? <==> forall r :: r in rules ==> !Speaks(r, f))
            && (v.Deny? ==> exists r :: SpeaksFirst(r, rules, f) && r.id == v.ruleId
                                        && r.effect.Veto? && r.effect.reason == v.reason)
            && (v.Replace? ==> exists r :: SpeaksFirst(r, rules, f) && r.id == v.ruleId
                                           && r.effect.Substitute? && r.effect.reason == v.reason
                                           && r.effect == v.effect)
  {
    GateIsHighestRanked(rules, f);
    hide FirstVerdict, SortStable, RuleAtMost;
    if exists r :: r in rules && Speaks(r, f) {
      var r :| SpeaksFirst(r, rules, f) && FirstVerdict(SortStable(RuleAtMost, rules), f) == VerdictOf(r);
      assert Speaks(r, f);
    }
  }

  /** Only the set of rules matters to the gate, if no two rules share salience and ID. */
  lemma GateForgetsOrder(s: seq<Rule>, t: seq<Rule>, f: Facts)
    requires UniqueKeys(s) && UniqueKeys(t) && SameRules(s, t)
    ensures FirstVerdict(SortStable(RuleAtMost, s), f) == FirstVerdict(SortStable(RuleAtMost, t), f)
  {
    TableIsASet(s, t);
  }

  /** Two rules that share both and disagree answer in the order they are listed in. */
  lemma TiedRulesKeepOrder(a: Rule, b: Rule, f: Facts)
    requires a.salience == b.salience && a.id == b.id && Speaks(a, f) && Speaks(b, f)
    ensures FirstVerdict(SortStable(RuleAtMost, [a, b]), f) == VerdictOf(a)
    ensures FirstVerdict(SortStable(RuleAtMost, [b, a]), f) == VerdictOf(b)
  {
    Irreflexive(a.id);
    forall x: Rule, y: Rule | RuleAtMost(x, y)
      ensures SortStable(RuleAtMost, [x, y]) == [x, y]
    {
      assert [x, y][1..] == [y];
      assert SortStable(RuleAtMost, [y]) == [y];
    }
  }

  // ----- the decision seam -----

  datatype Outcome = Hit(choice: Name, confidence: real, reason: Name) | Miss(biased: seq<Name>)

  /** Facts as the decision seam reads them. */
  function Deciding(f: Facts): Facts {
    if f.action == [] then f.(action := Word("decide")) else f
  }

  function At(m: map<Name, real>, k: Name): real {
    if k in m then m[k] else 0.0
  }

  /** What one rule adds to an option. */
  function Share(r: Rule, f: Facts, o: Name): real {
    if r.effect.Bias? && Fires(r, f) then At(r.effect.weights, o) else 0.0
  }

  /** The accumulated bias of an option. */
  function Weight(rules: seq<Rule>, f: Facts, o: Name): real {
    if rules == [] then 0.0
    else Weight(rules[..|rules| - 1], f, o) + Share(rules[|rules| - 1], f, o)
  }

  predicate Backs(r: Rule, f: Facts, o: Name) {
    r.effect.Bias? && Fires(r, f) && o in r.effect.weights
  }

  /** The confidence behind an option: that of the most confident rule that biases it, at least 0. */
  function Backing(rules: seq<Rule>, f: Facts, o: Name): real {
    if rules == [] then 0.0
    else
      var earlier, r := Backing(rules[..|rules| - 1], f, o), rules[|rules| - 1];
      if Backs(r, f, o) && r.confidence > earlier then r.confidence else earlier
  }

  function Forbidden(rules: seq<Rule>, f: Facts): set<Name> {
    if rules == [] then {}
    else
      var earlier, r := Forbidden(rules[..|rules| - 1], f), rules[|rules| - 1];
      if r.effect.Veto? && Fires(r, f) then earlier + (set o | o in r.effect.options) else earlier
  }

  predicate Forces(r: Rule, f: Facts, options: seq<Name>) {
    r.effect.Substitute? && Fires(r, f) && r.effect.action in options
  }

  function FirstForce(rules: seq<Rule>, f: Facts, options: seq<Name>): (r: Option<Rule>)
    ensures r.Some? ==> Forces(r.value, f, options)
  {
    if rules == [] then None
    else
      var earlier, r := FirstForce(rules[..|rules| - 1], f, options), rules[|rules| - 1];
      if earlier.None? && Forces(r, f, options) then Some(r) else earlier
  }

  function Allowed(options: seq<Name>, forbidden: set<Name>): (c: seq<Name>)
    ensures forall o :: o in c <==> o in options && o !in forbidden
  {
    if options == [] then []
    else
      var c, o := Allowed(options[..|options| - 1], forbidden), options[|options| - 1];
      if o in forbidden then c else c + [o]
  }

  // ----- what the scores mean, whatever the order of the table -----

  lemma {:induction false} ForbiddenMeans(rules: seq<Rule>, f: Facts, o: Name)
    ensures o in Forbidden(rules, f) <==>
            exists r :: r in rules && r.effect.Veto? && Fires(r, f) && o in r.effect.options
  {
    if rules != [] {
      ForbiddenMeans(rules[..|rules| - 1], f, o);
      assert rules == rules[..|rules| - 1] + [rules[|rules| - 1]];
    }
  }

  /** The backing is the least number that is at least 0 and at least every backing rule's confidence. */
  lemma {:induction false} BackingMeans(rules: seq<Rule>, f: Facts, o: Name)
    ensures var b := Backing(rules, f, o);
            && b >= 0.0 && (forall r :: r in rules && Backs(r, f, o) ==> r.confidence <= b)
            && (b == 0.0 || exists r :: r in rules && Backs(r, f, o) && r.confidence == b)
  {
    if rules != [] {
      BackingMeans(rules[..|rules| - 1], f, o);
      assert rules == rules[..|rules| - 1] + [rules[|rules| - 1]];
    }
  }

  lemma {:induction false} FirstForceMeans(rules: seq<Rule>, f: Facts, options: seq<Name>)
    ensures var s := FirstForce(rules, f, options);
            if s.None? then forall r :: r in rules ==> !Forces(r, f, options)
            else exists i :: 0 <= i < |rules| && rules[i] == s.value &&
                             forall k :: 0 <= k < i ==> !Forces(rules[k], f, options)
  {
    if rules != [] {
      var init, last := rules[..|rules| - 1], rules[|rules| - 1];
      FirstForceMeans(init, f, options);
      assert rules == init + [last];
      if FirstForce(init, f, options).Some? {
        var i :| 0 <= i < |init| && init[i] == FirstForce(init, f, options).value &&
                 forall k :: 0 <= k < i ==> !Forces(init[k], f, options);
        assert rules[i] == init[i] && forall k :: 0 <= k < i ==> rules[k] == init[k];
      } else if Forces(last, f, options) {
        assert forall k :: 0 <= k < |init| ==> init[k] in init && rules[k] == init[k];
      }
    }
  }

  /** In an engine the forced choice is that of the highest-ranked substitute that fires in-option. */
  lemma ForceIsHighestRanked(rules: seq<Rule>, f: Facts, options: seq<Name>)
    ensures var s := FirstForce(SortStable(RuleAtMost, rules), f, options);
            if exists r :: r in rules && Forces(r, f, options)
              then s.Some? && s.value in rules
                && forall q :: q in rules && Forces(q, f, options) ==> RuleAtMost(s.value, q)
              else s.None?
  {
    hide SortStable;
    var sorted := SortStable(RuleAtMost, rules);
    SortMembers(RuleAtMost, rules);
    FirstForceMeans(sorted, f, options);
    var s := FirstForce(sorted, f, options);
    if s.Some? {
      var i :| 0 <= i < |sorted| && sorted[i] == s.value && forall k :: 0 <= k < i ==> !Forces(sorted[k], f, options);
      assert s.value in sorted;
      forall q | q in rules && Forces(q, f, options) ensures RuleAtMost(s.value, q) {
        NotBefore(rules, i, q);
      }
    }
  }

  lemma {:induction false} WeightFirst(r: Rule, rules: seq<Rule>, f: Facts, o: Name)
    ensures Weight([r] + rules, f, o) == Share(r, f, o) + Weight(rules, f, o)
  {
    var all := [r] + rules;
    if rules == [] {
      assert all[..0] == [];
    } else {
      assert all[..|all| - 1] == [r] + rules[..|rules| - 1];
      WeightFirst(r, rules[..|rules| - 1], f, o);
    }
  }

  lemma {:induction false} WeightPlaced(r: Rule, rules: seq<Rule>, f: Facts, o: Name)
    ensures Weight(Place(RuleAtMost, r, rules), f, o) == Share(r, f, o) + Weight(rules, f, o)
  {
    hide Weight, Share;
    if rules == [] || RuleAtMost(r, rules[0]) {
      WeightFirst(r, rules, f, o);
    } else {
      WeightPlaced(r, rules[1..], f, o);
      WeightFirst(rules[0], Place(RuleAtMost, r, rules[1..]), f, o);
      WeightFirst(rules[0], rules[1..], f, o);
      assert rules == [rules[0]] + rules[1..];
    }
  }

  /** The weight of an option does not depend on the order of the table. */
  lemma {:induction false} WeightForgetsOrder(rules: seq<Rule>, f: Facts, o: Name)
    ensures Weight(SortStable(RuleAtMost, rules), f, o) == Weight(rules, f, o)
  {
    if rules != [] {
      WeightForgetsOrder(rules[1..], f, o);
      WeightPlaced(rules[0], SortStable(RuleAtMost, rules[1..]), f, o);
      WeightFirst(rules[0], rules[1..], f, o);
      assert rules == [rules[0]] + rules[1..];
    }
  }

  /** Nor does its backing. */
  lemma BackingForgetsOrder(rules: seq<Rule>, f: Facts, o: Name)
    ensures Backing(SortStable(RuleAtMost, rules), f, o) == Backing(rules, f, o)
  {
    hide SortStable, Backing;
    SortMembers(RuleAtMost, rules);
    BackingMeans(rules, f, o);
    BackingMeans(SortStable(RuleAtMost, rules), f, o);
  }

  // ----- the decision -----

  function ByWeight(w: Name -> real): (Name, Name) -> bool {
    (a, b) => w(a) >= w(b)
  }

  /** The weight and the backing of every option, given the rules and the facts. */
  datatype Scores = Scores(weight: Name -> real, backing: Name -> real)

  function Scored(rules: seq<Rule>, f: Facts): Scores {
    Scores(o => Weight(rules, f, o), o => Backing(rules, f, o))
  }

  /** Position `i` beats every other position by the margin, and its backing meets the floor. */
  ghost predicate Wins(s: Scores, floor: real, c: seq<Name>, i: nat) {
    && i < |c|
    && s.backing(c[i]) >= floor
    && forall j :: 0 <= j < |c| && j != i ==> s.weight(c[i]) - s.weight(c[j]) >= DECIDE_MARGIN
  }

  /** What the decision seam owes its caller when nothing is forced: elimination decides, or a clear and
      well-backed winner does; otherwise the surviving options come back, heaviest first. */
  ghost predicate Decided(s: Scores, floor: real, options: seq<Name>, c: seq<Name>, d: Outcome) {
    if |c| == 0 then d == Miss(options)
    else if |c| == 1 then
      && d.Hit? && d.choice == c[0]
      && d.confidence == if s.backing(c[0]) < floor then floor else s.backing(c[0])
    else if exists i: nat :: Wins(s, floor, c, i) then
      d.Hit? && exists i: nat :: Wins(s, floor, c, i) && d.choice == c[i] && d.confidence == s.backing(c[i])
    else
      d.Miss? && StablySorts(ByWeight(s.weight), c, d.biased)
  }

  /** `p` is the first heaviest position, `q` the first heaviest of the others. */
  ghost predicate TopTwo(w: Name -> real, c: seq<Name>, p: nat, q: nat) {
    && p < |c| && q < |c| && p != q
    && (forall k :: 0 <= k < |c| ==> w(c[k]) <= w(c[p]) && (k < p ==> w(c[k]) < w(c[p])))
    && (forall k :: 0 <= k < |c| && k != p ==> w(c[k]) <= w(c[q]) && (k < q ==> w(c[k]) < w(c[q])))
  }

  /** At most one position can win, and only the heaviest one. */
  lemma WinnerIsTop(s: Scores, floor: real, c: seq<Name>, p: nat, q: nat)
    requires TopTwo(s.weight, c, p, q)
    ensures (exists i: nat :: Wins(s, floor, c, i)) <==> Wins(s, floor, c, p)
    ensures Wins(s, floor, c, p) <==>
            s.weight(c[p]) - s.weight(c[q]) >= DECIDE_MARGIN && s.backing(c[p]) >= floor
  {
    var heaviest := s.weight(c[p]);
    forall i: nat | Wins(s, floor, c, i) ensures i == p {
    }
  }

  lemma WeightsRank(w: Name -> real, dom: seq<Name>)
    ensures Ranks(ByWeight(w), dom)
  {
  }

  /** The two heaviest of at least two candidates, ties by position. */
  method RankTwo(c: seq<Name>, weights: map<Name, real>, ghost w: Name -> real) returns (top: Name, second: Name)
    requires |c| >= 2 && forall o :: At(weights, o) == w(o)
    ensures exists p: nat, q: nat :: TopTwo(w, c, p, q) && top == c[p] && second == c[q]
  {
    top, second := c[0], c[1];
    ghost var p, q := 0, 1;
    if At(weights, second) > At(weights, top) {
      top, second := second, top;
      p, q := 1, 0;
    }
    var i := 2;
    assert c[..2] == [c[0], c[1]];
    while i < |c|
      invariant 2 <= i <= |c|
      invariant TopTwo(w, c[..i], p, q) && top == c[p] && second == c[q]
    {
      var x := At(weights, c[i]);
      assert c[..i + 1] == c[..i] + [c[i]];
      if x > At(weights, top) {
        second := top;
        top := c[i];
        p, q := i, p;
      } else if x > At(weights, second) {
        second := c[i];
        q := i;
      }
      i := i + 1;
    }
    assert c[..i] == c;
  }

  /** Adds one rule's weights, and raises the confidence of every option it names. */
  method AddBias(weights: map<Name, real>, conf: map<Name, real>, bias: map<Name, real>, confidence: real)
    returns (weights': map<Name, real>, conf': map<Name, real>)
    ensures forall o :: At(weights', o) == At(weights, o) + At(bias, o)
    ensures forall o :: At(conf', o) == if o in bias && confidence > At(conf, o) then confidence else At(conf, o)
  {
    weights', conf' := weights, conf;
    var todo := bias.Keys;
    while todo != {}
      invariant todo <= bias.Keys
      invariant forall o :: At(weights', o) == At(weights, o) + if o in todo then 0.0 else At(bias, o)
      invariant forall o ::
        At(conf', o) == if o in bias && o !in todo && confidence > At(conf, o) then confidence else At(conf, o)
    {
      var opt :| opt in todo;
      weights' := weights'[opt := At(weights', opt) + bias[opt]];
      if confidence > At(conf', opt) {
        conf' := conf'[opt := confidence];
      }
      todo := todo - {opt};
    }
  }

  /** An engine: nothing in it changes after it is made. */
  class Engine {
    const rules: seq<Rule>
    const floor: real
    const version: Name

    constructor (t: Table, floor: real)
      ensures rules == SortStable(RuleAtMost, t.rules)
      ensures this.floor == if floor <= 0.0 then DEFAULT_FLOOR else floor
      ensures version == t.version
    {
      rules := SortStable(RuleAtMost, t.rules);
      this.floor := if floor <= 0.0 then DEFAULT_FLOOR else floor;
      version := t.version;
    }

    /** The action seam. */
    method Gate(f: Facts, action: Name) returns (v: Verdict)
      ensures v == FirstVerdict(rules, f.(action := action))
    {
      var g := f.(action := action);
      var i := 0;
      assert rules[0..] == rules;
      while i < |rules|
        invariant 0 <= i <= |rules|
        invariant FirstVerdict(rules, g) == FirstVerdict(rules[i..], g)
      {
        var r := rules[i];
        assert rules[i..][1..] == rules[i + 1..];
        if r.effect.Veto? || r.effect.Substitute? {
          if r.when.Some? && r.when.value(g) {
            if r.effect.Substitute? {
              return Replace(r.effect, r.effect.reason, r.id);
            }
            return Deny(r.effect.reason, r.id);
          }
        }
        i := i + 1;
      }
      return Allow;
    }

    /** One pass over the table: the forced choice, the weights, the confidences and the vetoes. */
    method Scan(f: Facts, options: seq<Name>)
      returns (sub: Option<Rule>, weights: map<Name, real>, conf: map<Name, real>, vetoed: set<Name>)
      ensures sub == FirstForce(rules, f, options) && vetoed == Forbidden(rules, f)
      ensures forall o :: At(weights, o) == Weight(rules, f, o)
      ensures forall o :: At(conf, o) == Backing(rules, f, o)
    {
      sub, weights, conf, vetoed := None, map[], map[], {};
      var i := 0;
      while i < |rules|
        invariant 0 <= i <= |rules|
        invariant sub == FirstForce(rules[..i], f, options) && vetoed == Forbidden(rules[..i], f)
        invariant forall o :: At(weights, o) == Weight(rules[..i], f, o)
        invariant forall o :: At(conf, o) == Backing(rules[..i], f, o)
      {
        var r := rules[i];
        assert rules[..i + 1][..i] == rules[..i];
        if r.when.Some? && r.when.value(f) {
          match r.effect
          case Substitute(action, _, _) =>
            if sub.None? && action in options {
              sub := Some(r);
            }
          case Veto(forbidden, _) =>
            vetoed := vetoed + (set o | o in forbidden);
          case Bias(bias) =>
            weights, conf := AddBias(weights, conf, bias, r.confidence);
          case Inject(_, _) =>
        }
        i := i + 1;
      }
      assert rules[..i] == rules;
    }

    /** The decision seam. */
    method TryDecide(f: Facts, options: seq<Name>) returns (d: Outcome)
      ensures var g := Deciding(f);
              var sub := FirstForce(rules, g, options);
              if sub.Some?
                then d == Hit(sub.value.effect.action, sub.value.confidence, sub.value.effect.reason)
                else Decided(Scored(rules, g), floor, options, Allowed(options, Forbidden(rules, g)), d)
      ensures d.Hit? ==> d.choice in options
      ensures d.Hit? && FirstForce(rules, Deciding(f), options).None? ==> d.choice !in Forbidden(rules, Deciding(f))
    {
      var g := Deciding(f);
      var sub, weights, conf, vetoed := Scan(g, options);
      if sub.Some? {
        return Hit(sub.value.effect.action, sub.value.confidence, sub.value.effect.reason);
      }
      var c: seq<Name> := [];
      var i := 0;
      while i < |options|
        invariant 0 <= i <= |options|
        invariant c == Allowed(options[..i], vetoed)
      {
        assert options[..i + 1][..i] == options[..i];
        if options[i] !in vetoed {
          c := c + [options[i]];
        }
        i := i + 1;
      }
      assert options[..i] == options;
      d := Choose(g, options, c, weights, conf);
    }

    /** Elimination, a clear winner, or the options heaviest first. */
    method Choose(ghost g: Facts, options: seq<Name>, c: seq<Name>, weights: map<Name, real>, conf: map<Name, real>)
      returns (d: Outcome)
      requires forall o :: At(weights, o) == Weight(rules, g, o)
      requires forall o :: At(conf, o) == Backing(rules, g, o)
      ensures Decided(Scored(rules, g), floor, options, c, d)
      ensures d.Hit? ==> d.choice in c
    {
      hide Weight, Backing, StablySorts, SortStable, Word, Ranks;
      ghost var s := Scored(rules, g);
      if |c| == 0 {
        return Miss(options);
      }
      if |c| == 1 {
        var cf := At(conf, c[0]);
        return Hit(c[0], if cf < floor then floor else cf, Word("only remaining option after veto"));
      }
      var top, second := RankTwo(c, weights, s.weight);
      ghost var p: nat, q: nat :| TopTwo(s.weight, c, p, q) && top == c[p] && second == c[q];
      hide TopTwo;
      WinnerIsTop(s, floor, c, p, q);
      if At(weights, top) - At(weights, second) >= DECIDE_MARGIN && At(conf, top) >= floor {
        return Hit(top, At(conf, top), Word("policy bias"));
      }
      var heavier := (a, b) => At(weights, a) >= At(weights, b);
      WeightsRank(s.weight, c);
      SortsStably(ByWeight(s.weight), c);
      SortSameOrder(heavier, ByWeight(s.weight), c);
      return Miss(SortStable(heavier, c));
    }
  }
}
