/** What compiled policies do, whatever the persona. */
module PolicyMeaning {
  import opened Lex
  import opened Options
  import opened Sorting
  import opened Pearl
  import opened PolicyCompiler

  // ----- the gate -----

  predicate Stranger(f: Facts) {
    f.counter.None? || f.counter.value.familiar == 0
  }

  /** An unaggressive host is about to attack a target stronger by its margin. */
  predicate AttacksStronger(t: Text, p: Persona, f: Facts) {
    && Dial(p.aggression) < 0.5 && t.lower(f.action) == t.lower(Word("attack"))
    && f.targetCombatLevel > 0 && f.targetCombatLevel >= f.combatLevel + StrongerBy(p)
  }

  /** A pacifist is about to attack a stranger. */
  predicate StrikesFirst(t: Text, p: Persona, f: Facts) {
    Dial(p.aggression) < 0.3 && t.lower(f.action) == t.lower(Word("attack")) && Stranger(f)
  }

  /** A cautious host is about to confirm a trade with a stranger or somebody it distrusts. */
  predicate TradesBlindly(t: Text, p: Persona, f: Facts) {
    && (Hexaco(p, 'H') >= 0.6 || Hexaco(p, 'A') < 0.4 || LossNormal(p) > 0.5)
    && t.lower(f.action) == t.lower(Word("confirm_trade"))
    && (Stranger(f) || f.counter.value.trust < 0.0)
  }

  /** When each of the soft rules speaks. */
  lemma RulesSpeak(t: Text, p: Persona, f: Facts)
    ensures Dial(p.aggression) < 0.5 ==> (Speaks(NoAttackStronger(t, StrongerBy(p)), f) <==> AttacksStronger(t, p, f))
    ensures Dial(p.aggression) < 0.3 ==> (Speaks(WontStrikeFirst(t), f) <==> StrikesFirst(t, p, f))
    ensures Screens(p) ==> (Speaks(ScreenTrades(t), f) <==> TradesBlindly(t, p, f))
    ensures TradesBlindly(t, p, f) ==> Screens(p)
  {
    hide Dial, Hexaco, LossNormal, StrongerBy, Word;
  }

  lemma RulesMute(t: Text, p: Persona, f: Facts)
    ensures !Speaks(FleeWhenHurt(FleeBelow(p)), f) && !Speaks(GreetStranger(t), f) && !Speaks(BankWhenFull(), f)
    ensures !Speaks(StayOnTask(t, Stay(p)), f)
  {
    hide Dial, FleeBelow, Stay, Word;
  }

  ghost predicate Listed(c: bool, r: Rule, x: Rule) {
    c && x == r
  }

  lemma IfMember(c: bool, r: Rule)
    ensures forall x :: x in If(c, r) <==> Listed(c, r, x)
  {
  }

  lemma SoftMembers(t: Text, p: Persona)
    ensures forall x :: x in Soft(t, p) <==>
              || x == FleeWhenHurt(FleeBelow(p))
              || Listed(Dial(p.aggression) < 0.5, NoAttackStronger(t, StrongerBy(p)), x)
              || Listed(Dial(p.aggression) < 0.3, WontStrikeFirst(t), x)
              || Listed(Hexaco(p, 'X') >= 0.6, GreetStranger(t), x)
              || Listed(Screens(p), ScreenTrades(t), x)
              || Listed(Hexaco(p, 'C') >= 0.6, BankWhenFull(), x)
              || Listed(Dial(p.patience) >= 0.6, StayOnTask(t, Stay(p)), x)
  {
    hide Dial, Hexaco, FleeBelow, StrongerBy, Stay, Word, If, Listed, Screens;
    hide FleeWhenHurt, NoAttackStronger, WontStrikeFirst, GreetStranger, ScreenTrades, BankWhenFull, StayOnTask;
    IfMember(Dial(p.aggression) < 0.5, NoAttackStronger(t, StrongerBy(p)));
    IfMember(Dial(p.aggression) < 0.3, WontStrikeFirst(t));
    IfMember(Hexaco(p, 'X') >= 0.6, GreetStranger(t));
    IfMember(Screens(p), ScreenTrades(t));
    IfMember(Hexaco(p, 'C') >= 0.6, BankWhenFull());
    IfMember(Dial(p.patience) >= 0.6, StayOnTask(t, Stay(p)));
  }

  lemma SoftSpeakers(t: Text, p: Persona, f: Facts)
    ensures forall r :: r in Soft(t, p) && Speaks(r, f) <==>
              || (r == NoAttackStronger(t, StrongerBy(p)) && AttacksStronger(t, p, f))
              || (r == WontStrikeFirst(t) && StrikesFirst(t, p, f))
              || (r == ScreenTrades(t) && TradesBlindly(t, p, f))
  {
    RulesSpeak(t, p, f);
    RulesMute(t, p, f);
    SoftMembers(t, p);
    hide Dial, Hexaco, FleeBelow, StrongerBy, Stay, Word, Soft, Screens, Speaks, LossNormal, Stranger;
    hide FleeWhenHurt, NoAttackStronger, WontStrikeFirst, GreetStranger, ScreenTrades, BankWhenFull, StayOnTask;
  }

  lemma SoftVerdicts(t: Text, p: Persona)
    ensures VerdictOf(NoAttackStronger(t, StrongerBy(p))) ==
            Deny(Word("won't attack a stronger target"), Word("no_attack_stronger"))
    ensures VerdictOf(WontStrikeFirst(t)) == Deny(Word("won't start a fight"), Word("wont_strike_first"))
    ensures var reason := Word("check the offer before confirming");
            VerdictOf(ScreenTrades(t)) ==
            Replace(Substitute(Word("examine_offer"), [], reason), reason, Word("screen_trades"))
  {
    hide Word, StrongerBy;
  }

  /** The ranking of the three. */
  lemma SoftRanks(t: Text, p: Persona)
    ensures !RuleAtMost(WontStrikeFirst(t), NoAttackStronger(t, StrongerBy(p)))
    ensures !RuleAtMost(ScreenTrades(t), NoAttackStronger(t, StrongerBy(p)))
    ensures !RuleAtMost(ScreenTrades(t), WontStrikeFirst(t))
  {
    RuleNames();
    hide Word, StrongerBy;
    assert Less(Word("no_attack_stronger"), Word("wont_strike_first"));
  }

  /** No directive applies: the soft rules answer, the first of them that speaks. */
  lemma SoftAnswer(t: Text, p: Persona, f: Facts) returns (r: Option<Rule>)
    requires forall i: nat :: !Applies(t, p.directives, i, f)
    ensures var v := FirstVerdict(SortStable(RuleAtMost, CompiledRules(t, p)), f);
            if r.None? then v == Allow && forall q :: q in Soft(t, p) ==> !Speaks(q, f)
            else && v == VerdictOf(r.value) && r.value in Soft(t, p) && Speaks(r.value, f)
                 && forall q :: q in Soft(t, p) && Speaks(q, f) ==> RuleAtMost(r.value, q)
  {
    hide FirstVerdict, SortStable, Soft, DirectiveRules, Applies, Speaks, VerdictOf, RuleAtMost, DirectiveRule;
    var rules := CompiledRules(t, p);
    DirectiveMembers(t, p.directives);
    forall q | q in DirectiveRules(t, p.directives) ensures !Speaks(q, f) {
      var i :| 0 <= i < |p.directives| && DirectiveRule(t, i, p.directives[i]) == Some(q);
      DirectiveFires(t, p.directives, i, f);
    }
    GateIsHighestRanked(rules, f);
    if exists q :: q in rules && Speaks(q, f) {
      var q :| SpeaksFirst(q, rules, f) && FirstVerdict(SortStable(RuleAtMost, rules), f) == VerdictOf(q);
      r := Some(q);
    } else {
      r := None;
    }
  }

  /** The gate over a compiled table, for every persona and all facts: a hard directive that applies denies;
      else an attack on a stronger target, else a first strike by a pacifist, is denied; else a blind trade is
      replaced by a look at the offer; everything else is allowed. */
  lemma CompiledGate(t: Text, p: Persona, f: Facts)
    ensures var v := FirstVerdict(SortStable(RuleAtMost, CompiledRules(t, p)), f);
            var reason := Word("check the offer before confirming");
            if exists i: nat :: Applies(t, p.directives, i, f) then v.Deny?
            else if AttacksStronger(t, p, f) then
              v == Deny(Word("won't attack a stronger target"), Word("no_attack_stronger"))
            else if StrikesFirst(t, p, f) then v == Deny(Word("won't start a fight"), Word("wont_strike_first"))
            else if TradesBlindly(t, p, f) then
              v == Replace(Substitute(Word("examine_offer"), [], reason), reason, Word("screen_trades"))
            else v == Allow
  {
    hide FirstVerdict, SortStable, CompiledRules, Soft, Applies, Speaks, VerdictOf, RuleAtMost, Word;
    hide AttacksStronger, StrikesFirst, TradesBlindly, NoAttackStronger, WontStrikeFirst, ScreenTrades, DirectiveRule;
    if i: nat :| Applies(t, p.directives, i, f) {
      assert i < |p.directives| by {
        AppliesInRange(t, p.directives, i, f);
      }
      var k := FirstDirective(t, p, f, i);
      DirectiveVerdict(t, p.directives, k);
    } else {
      var r := SoftAnswer(t, p, f);
      SoftSpeakers(t, p, f);
      SoftVerdicts(t, p);
      SoftRanks(t, p);
      var a, b, c := NoAttackStronger(t, StrongerBy(p)), WontStrikeFirst(t), ScreenTrades(t);
      assert AttacksStronger(t, p, f) ==> a in Soft(t, p) && Speaks(a, f);
      assert StrikesFirst(t, p, f) ==> b in Soft(t, p) && Speaks(b, f);
      assert TradesBlindly(t, p, f) ==> c in Soft(t, p) && Speaks(c, f);
    }
  }

  lemma AppliesInRange(t: Text, ds: seq<Directive>, i: nat, f: Facts)
    requires Applies(t, ds, i, f)
    ensures i < |ds|
  {
  }

  // ----- the scores of a decision -----

  lemma {:induction false} WeightConcat(a: seq<Rule>, b: seq<Rule>, f: Facts, o: Name)
    ensures Weight(a + b, f, o) == Weight(a, f, o) + Weight(b, f, o)
    decreases |b|
  {
    hide Share;
    if b == [] {
      assert a + b == a;
    } else {
      assert (a + b)[..|a + b| - 1] == a + b[..|b| - 1];
      WeightConcat(a, b[..|b| - 1], f, o);
    }
  }

  lemma NoBias(rules: seq<Rule>, f: Facts, o: Name)
    requires forall r :: r in rules ==> !r.effect.Bias?
    ensures Weight(rules, f, o) == 0.0
  {
    WeightBounds(rules, f, o);
  }

  lemma OneWeight(c: bool, r: Rule, f: Facts, o: Name)
    ensures Weight(If(c, r), f, o) == if c then Share(r, f, o) else 0.0
  {
    assert [r][..0] == [];
  }

  lemma OthersDoNotBias(t: Text, p: Persona)
    ensures forall r :: r in Socials(t, p) + DirectiveRules(t, p.directives) ==> !r.effect.Bias?
    ensures var vetoes := If(Dial(p.aggression) < 0.5, NoAttackStronger(t, StrongerBy(p)))
                          + If(Dial(p.aggression) < 0.3, WontStrikeFirst(t));
            forall r :: r in vetoes ==> !r.effect.Bias?
  {
    DirectiveMembers(t, p.directives);
    hide Word, Dial, Hexaco, Screens, StrongerBy, DirectiveId, DirectiveRules, Contains;
  }

  /** The weights of a compiled table come from the flight reflex and from patience alone. */
  lemma TwoBiases(t: Text, p: Persona, f: Facts, o: Name)
    ensures Weight(CompiledRules(t, p), f, o) ==
            Share(FleeWhenHurt(FleeBelow(p)), f, o)
            + if Dial(p.patience) >= 0.6 then Share(StayOnTask(t, Stay(p)), f, o) else 0.0
  {
    OthersDoNotBias(t, p);
    FleeFirst(t, p);
    hide Weight, Share, If, FleeWhenHurt, StayOnTask, Dial, Stay, FleeBelow, CompiledRules, Socials, DirectiveRules;
    hide NoAttackStronger, WontStrikeFirst, StrongerBy;
    var vetoes := If(Dial(p.aggression) < 0.5, NoAttackStronger(t, StrongerBy(p)))
                  + If(Dial(p.aggression) < 0.3, WontStrikeFirst(t));
    var ds := DirectiveRules(t, p.directives);
    assert forall r :: r in Socials(t, p) || r in ds ==> r in Socials(t, p) + ds;
    WeightFirst(FleeWhenHurt(FleeBelow(p)), Rest(t, p), f, o);
    WeightConcat(vetoes, Socials(t, p), f, o);
    WeightConcat(vetoes + Socials(t, p), Styles(t, p), f, o);
    WeightConcat(vetoes + Socials(t, p) + Styles(t, p), ds, f, o);
    NoBias(vetoes, f, o);
    NoBias(Socials(t, p), f, o);
    NoBias(ds, f, o);
    OneWeight(Dial(p.patience) >= 0.6, StayOnTask(t, Stay(p)), f, o);
  }

  /** The host is hurt: below the threshold, as a fraction of its hit points. */
  predicate Hurt(f: Facts, threshold: real) {
    f.hpMax > 0 && f.hpCur as real < threshold * f.hpMax as real
  }

  lemma HurtMeans(f: Facts, threshold: real)
    ensures HPBelow(threshold)(f) <==> Hurt(f, threshold)
  {
    if f.hpMax > 0 {
      var m, q := f.hpMax as real, f.hpCur as real / f.hpMax as real;
      assert q * m == f.hpCur as real;
      if q < threshold {
        assert q * m < threshold * m;
      } else {
        assert q * m >= threshold * m;
      }
    }
  }

  /** A hurt host leans to fleeing and away from fighting. */
  function FleeLean(hurt: bool, o: Name): real {
    if !hurt then 0.0
    else if o == Word("flee") then 0.9
    else if o == Word("fight") then -0.5 else 0.0
  }

  /** A patient host leans to carrying on and away from changing its task. */
  function StayLean(patient: bool, w: real, o: Name): real {
    if !patient then 0.0
    else if o == Word("continue") then w
    else if o == Word("switch") || o == Word("explore") then -w else 0.0
  }

  lemma FleeShare(f: Facts, threshold: real, o: Name)
    ensures Share(FleeWhenHurt(threshold), f, o) == FleeLean(Hurt(f, threshold), o)
  {
    HurtMeans(f, threshold);
    assert |Word("flee")| == 4 && |Word("fight")| == 5;
    hide Word, HPBelow, Hurt;
  }

  lemma StayShare(t: Text, f: Facts, w: real, o: Name)
    ensures Share(StayOnTask(t, w), f, o) == StayLean(t.lower(f.action) == t.lower(Word("decide")), w, o)
  {
    assert |Word("continue")| == 8 && |Word("switch")| == 6 && |Word("explore")| == 7;
    hide Word;
  }

  /** The score of every option of a decision, for every persona and all facts: the two leanings, and nothing
      else counts. Facts without an action are facts about deciding. */
  lemma CompiledScore(t: Text, p: Persona, f: Facts, o: Name)
    ensures var deciding := f.action == [] || t.lower(f.action) == t.lower(Word("decide"));
            var patient := Dial(p.patience) >= 0.6 && deciding;
            Weight(SortStable(RuleAtMost, CompiledRules(t, p)), Deciding(f), o) ==
            FleeLean(Hurt(f, FleeBelow(p)), o) + StayLean(patient, 0.3 + 0.4 * Dial(p.patience), o)
  {
    var g := Deciding(f);
    hide Word, CompiledRules, SortStable, Weight, Share, FleeWhenHurt, StayOnTask, Dial, FleeBelow, StayLean, FleeLean;
    assert Hurt(g, FleeBelow(p)) == Hurt(f, FleeBelow(p));
    hide Hurt;
    WeightForgetsOrder(CompiledRules(t, p), g, o);
    TwoBiases(t, p, g, o);
    FleeShare(g, FleeBelow(p), o);
    StayShare(t, g, Stay(p), o);
    NoLean(Stay(p), o);
  }

  lemma NoLean(w: real, o: Name)
    ensures StayLean(false, w, o) == 0.0
  {
  }

  // ----- the numbers -----

  function Greed(c: CoopType): int {
    match c
    case Altruist => 0
    case Conditional => 1
    case FreeRider => 2
  }

  /** Trade policy follows disposition: honesty never raises the price asked or the readiness to deceive,
      a less cooperative type never lowers them, loss aversion never lowers the price or the reluctance to
      take risks, and a taste for economic risk never raises the latter. */
  lemma TradingFollows(p: Persona, q: Persona)
    requires Hexaco(p, 'H') >= Hexaco(q, 'H') && Greed(p.coopType) <= Greed(q.coopType)
    ensures LossNormal(p) <= LossNormal(q) ==> Trading(p).fairnessThreshold <= Trading(q).fairnessThreshold
    ensures Trading(p).scamPropensity <= Trading(q).scamPropensity
    ensures LossNormal(p) <= LossNormal(q) && BandScalar(p.economicRisk) >= BandScalar(q.economicRisk) ==>
              Trading(p).riskAversion <= Trading(q).riskAversion
  {
    hide Hexaco, LossNormal, BandScalar;
  }

  /** And it is the neutral one for a persona that is neutral in these respects; the uncooperative ask for 0.15
      more and deceive more readily by 0.2, altruists are content with 0.15 less. */
  lemma NeutralTrading(p: Persona)
    requires Hexaco(p, 'H') == 0.5 && LossNormal(p) == 0.5 && BandScalar(p.economicRisk) == 0.5
    ensures Trading(p) ==
            match p.coopType
            case Conditional => TradePolicy(0.975, 0.35, 0.5)
            case FreeRider => TradePolicy(1.125, 0.55, 0.5)
            case Altruist => TradePolicy(0.825, 0.35, 0.5)
  {
    hide Hexaco, LossNormal, BandScalar;
  }

  /** The margin by which an unaggressive host lets targets be stronger is the whole number nearest to eight
      times what its aggression lacks of one half. */
  lemma MarginIsNearest(p: Persona)
    requires Dial(p.aggression) < 0.5
    ensures var exact := (0.5 - Dial(p.aggression)) * 8.0;
            exact - 0.5 < StrongerBy(p) as real <= exact + 0.5
  {
  }

  /** The flight threshold and the evidence a decision needs follow the dials, and are neutral for neutral ones. */
  lemma ThresholdsFollow(p: Persona, q: Persona)
    ensures Hexaco(p, 'E') <= Hexaco(q, 'E') && SelfPreservation(p) <= SelfPreservation(q) ==>
              FleeBelow(p) <= FleeBelow(q)
    ensures Hexaco(p, 'E') == 0.5 && SelfPreservation(p) == 0.5 ==> FleeBelow(p) == 0.35
    ensures Dial(p.decisiveness) <= Dial(q.decisiveness) ==> DecisionFloor(p) >= DecisionFloor(q)
    ensures Dial(p.decisiveness) == 0.5 ==> DecisionFloor(p) == 0.55
  {
    hide Hexaco, SelfPreservation, Dial;
  }

  /** Bands are read as the centres of six equal parts, in order; an unknown one as the middle. */
  lemma BandsInOrder(b: Band, c: Band)
    ensures b != Unknown && c != Unknown && Ordinal(b) < Ordinal(c) ==>
              BandScalar(c) - BandScalar(b) == (Ordinal(c) - Ordinal(b)) as real / 6.0
    ensures BandScalar(VeryLow) + BandScalar(VeryHigh) == 1.0 && BandScalar(Unknown) == 0.5
  {
  }
}
