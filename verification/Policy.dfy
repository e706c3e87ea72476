/** The deterministic half of the persona compiler: disposition and directives become a rule table. */
module PolicyCompiler {
  import opened Lex
  import opened Options
  import opened Sorting
  import opened Pearl

  /** Case folding and trimming, as total functions. */
  datatype Text = Text(lower: Name -> Name, trim: Name -> Name)

  // ----- the predicate vocabulary -----

  function HPFraction(f: Facts): real {
    if f.hpMax <= 0 then 0.0 else f.hpCur as real / f.hpMax as real
  }

  function HPBelow(frac: real): Predicate {
    (f: Facts) => f.hpMax > 0 && HPFraction(f) < frac
  }

  function TargetStronger(delta: int): Predicate {
    (f: Facts) => f.targetCombatLevel > 0 && f.targetCombatLevel - f.combatLevel >= delta
  }

  function InventoryFull(): Predicate {
    (f: Facts) => f.invFree == 0
  }

  function OnAction(t: Text, name: Name): Predicate {
    (f: Facts) => t.lower(f.action) == t.lower(name)
  }

  function OnEvent(t: Text, kind: Name): Predicate {
    (f: Facts) => t.lower(f.busKind) == t.lower(kind)
  }

  function TrustBelow(trust: real): Predicate {
    (f: Facts) => f.counter.Some? && f.counter.value.trust < trust
  }

  function IsStranger(): Predicate {
    (f: Facts) => f.counter.None? || f.counter.value.familiar == 0
  }

  function Both(p: Predicate, q: Predicate): Predicate {
    (f: Facts) => p(f) && q(f)
  }

  function Either(p: Predicate, q: Predicate): Predicate {
    (f: Facts) => p(f) || q(f)
  }

  // ----- the persona -----

  datatype Band = VeryLow | Low | Mid | MidHigh | High | VeryHigh | Unknown

  datatype Trait = Trait(band: Band, mu: real)

  datatype CoopType = Altruist | Conditional | FreeRider

  datatype Directive = Directive(action: Name, modifier: Name, hard: bool)

  datatype Persona = Persona(
    name: Name, hexaco: map<char, Trait>,
    aggression: Trait, patience: Trait, decisiveness: Trait, lossAversion: Trait,
    selfPreservation: Option<Trait>, economicRisk: Band, bodilyRisk: Band, coopType: CoopType,
    directives: seq<Directive>)

  datatype TradePolicy = TradePolicy(fairnessThreshold: real, scamPropensity: real, riskAversion: real)

  datatype CompiledPolicy = CompiledPolicy(table: Table, trade: TradePolicy, decisionFloor: real)

  const SAL_DIRECTIVE: int8 := 100
  const SAL_REFLEX: int8 := 60
  const SAL_SOCIAL: int8 := 40
  const SAL_STYLE: int8 := 20

  // ----- dials -----

  function Ordinal(b: Band): int {
    match b
    case VeryLow => 0
    case Low => 1
    case Mid => 2
    case MidHigh => 3
    case High => 4
    case VeryHigh => 5
    case Unknown => -1
  }

  function BandScalar(b: Band): (r: real)
    ensures 0.0 < r < 1.0
  {
    if Ordinal(b) < 0 then 0.5 else (Ordinal(b) as real + 0.5) / 6.0
  }

  function Dial(t: Trait): (r: real)
    ensures 0.0 < r <= 1.0
  {
    if 0.0 < t.mu <= 1.0 then t.mu else BandScalar(t.band)
  }

  function Hexaco(p: Persona, letter: char): (r: real)
    ensures 0.0 < r <= 1.0
  {
    if letter in p.hexaco then Dial(p.hexaco[letter]) else 0.5
  }

  function LossLambda(t: Trait): (r: real)
    ensures r >= 1.0
  {
    if t.mu >= 1.0 then t.mu else 1.0 + 2.0 * BandScalar(t.band)
  }

  function Clamp(v: real, lo: real, hi: real): (r: real)
    requires lo <= hi
    ensures lo <= r <= hi && (lo <= v <= hi ==> r == v)
  {
    if v < lo then lo else if v > hi then hi else v
  }

  /** Rounds halves away from zero. */
  function Round(x: real): int {
    if x >= 0.0 then (x + 0.5).Floor else -(-x + 0.5).Floor
  }

  function LossNormal(p: Persona): real {
    Clamp((LossLambda(p.lossAversion) - 1.0) / 2.0, 0.0, 1.0)
  }

  function SelfPreservation(p: Persona): real {
    if p.selfPreservation.Some? then Dial(p.selfPreservation.value)
    else 0.5 * LossNormal(p) + 0.5 * (1.0 - BandScalar(p.bodilyRisk))
  }

  function FleeBelow(p: Persona): (r: real)
    ensures 0.1 <= r <= 0.6
  {
    Clamp(0.15 + 0.4 * Hexaco(p, 'E') + 0.1 * (SelfPreservation(p) - 0.5), 0.1, 0.6)
  }

  /** How much stronger a target must be to be left alone. */
  function StrongerBy(p: Persona): int {
    var delta := Round((0.5 - Dial(p.aggression)) * 8.0);
    if delta < 0 then 0 else delta
  }

  /** How much a patient host prefers carrying on. */
  function Stay(p: Persona): (w: real)
    ensures w >= 0.0
  {
    0.3 + 0.4 * Dial(p.patience)
  }

  // ----- the rules -----

  function FleeWhenHurt(threshold: real): Rule {
    Rule(Word("flee_when_hurt"), Some(HPBelow(threshold)),
         Bias(map[Word("flee") := 0.9, Word("fight") := -0.5]), SAL_REFLEX, 0.85, Word("decision_style"))
  }

  function NoAttackStronger(t: Text, delta: int): Rule {
    Rule(Word("no_attack_stronger"), Some(Both(OnAction(t, Word("attack")), TargetStronger(delta))),
         Veto([], Word("won't attack a stronger target")), SAL_REFLEX, 1.0, Word("decision_style"))
  }

  function WontStrikeFirst(t: Text): Rule {
    Rule(Word("wont_strike_first"), Some(Both(OnAction(t, Word("attack")), IsStranger())),
         Veto([], Word("won't start a fight")), SAL_REFLEX, 1.0, Word("decision_style"))
  }

  function GreetStranger(t: Text): Rule {
    Rule(Word("greet_stranger"), Some(Both(OnEvent(t, Word("player_appeared")), IsStranger())),
         Inject(Word("say"), [Word("hello there")]), SAL_SOCIAL, 0.5, Word("decision_style"))
  }

  function ScreenTrades(t: Text): Rule {
    Rule(Word("screen_trades"),
         Some(Both(OnAction(t, Word("confirm_trade")), Either(IsStranger(), TrustBelow(0.0)))),
         Substitute(Word("examine_offer"), [], Word("check the offer before confirming")),
         SAL_SOCIAL, 0.7, Word("decision_style"))
  }

  function BankWhenFull(): Rule {
    Rule(Word("bank_when_full"), Some(InventoryFull()), Inject(Word("bank"), []), SAL_SOCIAL, 0.6,
         Word("decision_style"))
  }

  function StayOnTask(t: Text, w: real): Rule {
    Rule(Word("stay_on_task"), Some(OnAction(t, Word("decide"))),
         Bias(map[Word("continue") := w, Word("switch") := -w, Word("explore") := -w]), SAL_STYLE, 0.6,
         Word("decision_style"))
  }

  predicate Contains(s: Name, part: Name) {
    (|s| >= |part| && s[..|part|] == part) || (s != [] && Contains(s[1..], part))
  }

  function Verb(t: Text, d: Directive): Name {
    t.trim(t.lower(d.action))
  }

  predicate Narrowed(t: Text, d: Directive) {
    Contains(t.lower(d.modifier), Word("stronger"))
  }

  function Decimal(n: nat): Key {
    if n < 10 then [48 + n] else Decimal(n / 10) + [48 + n % 10]
  }

  /** "directive_<i>_<verb>" */
  function DirectiveId(i: nat, verb: Name): Name {
    Word("directive_") + (Decimal(i) + ([95] + verb))
  }

  /** A hard directive becomes a veto of the named action, possibly only against stronger targets. */
  function DirectiveRule(t: Text, i: nat, d: Directive): Option<Rule> {
    var verb := Verb(t, d);
    if verb == [] || !d.hard then None
    else
      var when := if Narrowed(t, d) then Both(OnAction(t, verb), TargetStronger(0)) else OnAction(t, verb);
      Some(Rule(DirectiveId(i, verb), Some(when),
                Veto([], Word("cornerstone directive: ") + d.action + Word(" ") + d.modifier),
                SAL_DIRECTIVE, 1.0, Word("cornerstone_directive")))
  }

  // ----- the table, by salience band -----

  function If(c: bool, r: Rule): seq<Rule> {
    if c then [r] else []
  }

  function Reflexes(t: Text, p: Persona): seq<Rule> {
    [FleeWhenHurt(FleeBelow(p))]
    + If(Dial(p.aggression) < 0.5, NoAttackStronger(t, StrongerBy(p)))
    + If(Dial(p.aggression) < 0.3, WontStrikeFirst(t))
  }

  predicate Screens(p: Persona) {
    Hexaco(p, 'H') >= 0.6 || Hexaco(p, 'A') < 0.4 || LossNormal(p) > 0.5
  }

  function Socials(t: Text, p: Persona): seq<Rule> {
    If(Hexaco(p, 'X') >= 0.6, GreetStranger(t)) + If(Screens(p), ScreenTrades(t))
    + If(Hexaco(p, 'C') >= 0.6, BankWhenFull())
  }

  function Styles(t: Text, p: Persona): seq<Rule> {
    If(Dial(p.patience) >= 0.6, StayOnTask(t, Stay(p)))
  }

  function DirectiveRules(t: Text, ds: seq<Directive>): seq<Rule> {
    if ds == [] then []
    else
      var r := DirectiveRule(t, |ds| - 1, ds[|ds| - 1]);
      DirectiveRules(t, ds[..|ds| - 1]) + if r.Some? then [r.value] else []
  }

  function Soft(t: Text, p: Persona): seq<Rule> {
    Reflexes(t, p) + Socials(t, p) + Styles(t, p)
  }

  function CompiledRules(t: Text, p: Persona): seq<Rule> {
    Soft(t, p) + DirectiveRules(t, p.directives)
  }

  function Trading(p: Persona): (trade: TradePolicy)
    ensures 0.8 <= trade.fairnessThreshold <= 1.4
    ensures 0.0 <= trade.scamPropensity <= 1.0 && 0.0 <= trade.riskAversion <= 1.0
  {
    var h, lamN := Hexaco(p, 'H'), LossNormal(p);
    var coopAdj := match p.coopType case Altruist => -0.15 case FreeRider => 0.15 case Conditional => 0.0;
    var bonus := if p.coopType == FreeRider then 0.2 else 0.0;
    TradePolicy(
      Clamp(1.0 - 0.2 * h + coopAdj + 0.15 * lamN, 0.8, 1.4),
      Clamp((1.0 - h) * 0.7 + bonus, 0.0, 1.0),
      Clamp(0.5 * (1.0 - BandScalar(p.economicRisk)) + 0.5 * lamN, 0.0, 1.0))
  }

  /** A decisive host acts locally on thinner evidence. */
  function DecisionFloor(p: Persona): (floor: real)
    ensures 0.4 <= floor <= 0.8
  {
    Clamp(0.75 - 0.4 * Dial(p.decisiveness), 0.4, 0.8)
  }

  method CompilePolicy(t: Text, p: Persona) returns (c: CompiledPolicy)
    ensures c.table.rules == CompiledRules(t, p)
    ensures c.trade == Trading(p)
    ensures c.decisionFloor == DecisionFloor(p)
  {
    hide Word, Dial, Trading, DecisionFloor, DirectiveRule, Soft;
    var rules := CompileSoft(t, p);
    var i := 0;
    assert rules + [] == rules;
    while i < |p.directives|
      invariant 0 <= i <= |p.directives|
      invariant rules == Soft(t, p) + DirectiveRules(t, p.directives[..i])
    {
      assert p.directives[..i + 1][..i] == p.directives[..i];
      var r := DirectiveRule(t, i, p.directives[i]);
      if r.Some? {
        rules := rules + [r.value];
      }
      i := i + 1;
    }
    assert p.directives[..i] == p.directives;
    c := CompiledPolicy(Table(rules, Word("compiled:") + if p.name == [] then Word("anon") else p.name),
                        Trading(p), DecisionFloor(p));
  }

  method AddIf(rules: seq<Rule>, c: bool, r: Rule) returns (more: seq<Rule>)
    ensures more == rules + If(c, r)
  {
    more := if c then rules + [r] else rules;
  }

  method CompileSoft(t: Text, p: Persona) returns (rules: seq<Rule>)
    ensures rules == Soft(t, p)
  {
    hide Word, Dial, Hexaco, LossNormal, FleeBelow, StrongerBy, Screens, If;
    hide FleeWhenHurt, NoAttackStronger, WontStrikeFirst, GreetStranger, ScreenTrades, BankWhenFull, StayOnTask;
    rules := [FleeWhenHurt(FleeBelow(p))];
    rules := AddIf(rules, Dial(p.aggression) < 0.5, NoAttackStronger(t, StrongerBy(p)));
    rules := AddIf(rules, Dial(p.aggression) < 0.3, WontStrikeFirst(t));
    rules := AddIf(rules, Hexaco(p, 'X') >= 0.6, GreetStranger(t));
    rules := AddIf(rules, Screens(p), ScreenTrades(t));
    rules := AddIf(rules, Hexaco(p, 'C') >= 0.6, BankWhenFull());
    rules := AddIf(rules, Dial(p.patience) >= 0.6, StayOnTask(t, Stay(p)));
    Regroup(Reflexes(t, p), If(Hexaco(p, 'X') >= 0.6, GreetStranger(t)), If(Screens(p), ScreenTrades(t)),
            If(Hexaco(p, 'C') >= 0.6, BankWhenFull()));
  }

  lemma Regroup<T>(r: seq<T>, a: seq<T>, b: seq<T>, c: seq<T>)
    ensures ((r + a) + b) + c == r + ((a + b) + c)
  {
  }

  /** Less aggression means a wider margin, between 0 and 4 levels. */
  lemma MarginWidens(p: Persona, q: Persona)
    requires Dial(p.aggression) <= Dial(q.aggression) < 0.5
    ensures 0 <= StrongerBy(q) <= StrongerBy(p) <= 4
  {
    var x, y := (0.5 - Dial(p.aggression)) * 8.0, (0.5 - Dial(q.aggression)) * 8.0;
    assert 0.0 < y <= x < 4.0;
  }

  // ----- directives dominate -----

  /** Directive `i` is hard, names the action at hand, and its narrowing, if any, is met. */
  predicate Applies(t: Text, ds: seq<Directive>, i: nat, f: Facts) {
    && i < |ds| && ds[i].hard && Verb(t, ds[i]) != []
    && t.lower(f.action) == t.lower(Verb(t, ds[i]))
    && (Narrowed(t, ds[i]) ==> f.targetCombatLevel > 0 && f.targetCombatLevel >= f.combatLevel)
  }

  lemma {:induction false} DirectiveMembers(t: Text, ds: seq<Directive>)
    ensures forall r :: r in DirectiveRules(t, ds) <==>
            exists i :: 0 <= i < |ds| && DirectiveRule(t, i, ds[i]) == Some(r)
  {
    hide DirectiveRule;
    if ds != [] {
      var init := ds[..|ds| - 1];
      DirectiveMembers(t, init);
      var last := DirectiveRule(t, |ds| - 1, ds[|ds| - 1]);
      forall r
        ensures r in DirectiveRules(t, ds) <==> exists i :: 0 <= i < |ds| && DirectiveRule(t, i, ds[i]) == Some(r)
      {
        if i :| 0 <= i < |ds| && DirectiveRule(t, i, ds[i]) == Some(r) {
          if i < |init| {
            assert DirectiveRule(t, i, init[i]) == Some(r);
          }
        }
        if r in DirectiveRules(t, init) {
          var i :| 0 <= i < |init| && DirectiveRule(t, i, init[i]) == Some(r);
          assert DirectiveRule(t, i, ds[i]) == Some(r);
        }
      }
    }
  }

  lemma DirectiveFires(t: Text, ds: seq<Directive>, i: nat, f: Facts)
    requires i < |ds|
    ensures var r := DirectiveRule(t, i, ds[i]);
            && (Applies(t, ds, i, f) <==> r.Some? && Speaks(r.value, f))
            && (r.Some? ==> r.value.salience == SAL_DIRECTIVE && VerdictOf(r.value).Deny?)
  {
    hide Word, Contains, DirectiveId;
  }

  lemma SoftSalience(t: Text, p: Persona)
    ensures forall r :: r in Soft(t, p) ==> r.salience <= SAL_REFLEX
  {
    hide Word, Dial, Hexaco, LossNormal, FleeBelow, StrongerBy, Screens;
  }

  /** The gate answers with the denial of directive `k`. */
  ghost predicate DeniedBy(t: Text, p: Persona, f: Facts, k: nat) {
    && k < |p.directives| && DirectiveRule(t, k, p.directives[k]).Some?
    && FirstVerdict(SortStable(RuleAtMost, CompiledRules(t, p)), f) ==
       VerdictOf(DirectiveRule(t, k, p.directives[k]).value)
  }

  /** Whatever the persona: the gate's answer is the denial of some directive if and only if some hard
      directive applies. No other rule, and no substitute, can come before it or pass for it. */
  lemma DirectivesDominate(t: Text, p: Persona, f: Facts)
    ensures (exists i: nat :: Applies(t, p.directives, i, f)) <==> exists k: nat :: DeniedBy(t, p, f, k)
  {
    if i: nat :| Applies(t, p.directives, i, f) {
      assert i < |p.directives|;
      var k := FirstDirective(t, p, f, i);
      assert DeniedBy(t, p, f, k);
    }
    if k: nat :| DeniedBy(t, p, f, k) {
      DeniedApplies(t, p, f, k);
    }
  }

  /** A denial comes from a rule of the table that carries its ID and speaks. */
  lemma DenialHasSource(rules: seq<Rule>, f: Facts) returns (r: Rule)
    requires FirstVerdict(SortStable(RuleAtMost, rules), f).Deny?
    ensures r in rules && Speaks(r, f) && r.id == FirstVerdict(SortStable(RuleAtMost, rules), f).ruleId
  {
    hide FirstVerdict, SortStable, RuleAtMost;
    GateIsHighestRanked(rules, f);
    r :| SpeaksFirst(r, rules, f) && FirstVerdict(SortStable(RuleAtMost, rules), f) == VerdictOf(r);
  }

  /** A compiled rule with the ID of directive `k` is that directive's rule. */
  lemma IdOfDirective(t: Text, p: Persona, k: nat, r: Rule)
    requires r in CompiledRules(t, p) && k < |p.directives|
    requires r.id == DirectiveId(k, Verb(t, p.directives[k]))
    ensures DirectiveRule(t, k, p.directives[k]) == Some(r)
  {
    DirectiveMembers(t, p.directives);
    SoftIds(t, p);
    hide DirectiveRule, DirectiveId, Soft, DirectiveRules, Word, Verb;
    DirectiveInitial(k, Verb(t, p.directives[k]));
    assert r !in Soft(t, p);
    var j :| 0 <= j < |p.directives| && DirectiveRule(t, j, p.directives[j]) == Some(r);
    DirectiveVerdict(t, p.directives, j);
    if j != k {
      IdsApart(j, k, Verb(t, p.directives[j]), Verb(t, p.directives[k]));
    }
  }

  /** A directive whose denial is the answer applies: its ID is its own. */
  lemma DeniedApplies(t: Text, p: Persona, f: Facts, k: nat)
    requires DeniedBy(t, p, f, k)
    ensures Applies(t, p.directives, k, f)
  {
    hide DirectiveRule, DirectiveId, Applies, Speaks, FirstVerdict, SortStable, CompiledRules, VerdictOf, Verb;
    DirectiveVerdict(t, p.directives, k);
    var r := DenialHasSource(CompiledRules(t, p), f);
    IdOfDirective(t, p, k, r);
    DirectiveFires(t, p.directives, k, f);
  }

  lemma DirectiveVerdict(t: Text, ds: seq<Directive>, k: nat)
    requires k < |ds| && DirectiveRule(t, k, ds[k]).Some?
    ensures var r := DirectiveRule(t, k, ds[k]).value;
            r.id == DirectiveId(k, Verb(t, ds[k])) && VerdictOf(r).Deny? && VerdictOf(r).ruleId == r.id
  {
    hide DirectiveId, Word, Contains;
  }

  const INITIAL: byte := 100

  lemma DirectiveInitial(k: nat, verb: Name)
    ensures DirectiveId(k, verb) != [] && DirectiveId(k, verb)[0] == INITIAL
  {
    assert Word("directive_")[0] == INITIAL;
  }

  /** Lengths and initials of the rule names. */
  lemma RuleNames()
    ensures |Word("flee_when_hurt")| == 14 && Word("flee_when_hurt")[0] == 102
    ensures |Word("no_attack_stronger")| == 18 && Word("no_attack_stronger")[0] == 110
    ensures |Word("wont_strike_first")| == 17 && Word("wont_strike_first")[0] == 119
    ensures |Word("greet_stranger")| == 14 && Word("greet_stranger")[0] == 103
    ensures |Word("screen_trades")| == 13 && Word("screen_trades")[0] == 115
    ensures |Word("bank_when_full")| == 14 && Word("bank_when_full")[0] == 98
    ensures |Word("stay_on_task")| == 12 && Word("stay_on_task")[0] == 115
  {
  }

  ghost predicate NoDirectiveIds(rules: seq<Rule>) {
    forall r :: r in rules ==> r.id != [] && r.id[0] != INITIAL
  }

  lemma ReflexIds(t: Text, p: Persona)
    ensures NoDirectiveIds(Reflexes(t, p)) && UniqueKeys(Reflexes(t, p))
  {
    hide Dial, FleeBelow, StrongerBy, Word;
    RuleNames();
  }

  lemma SocialIds(t: Text, p: Persona)
    ensures NoDirectiveIds(Socials(t, p)) && UniqueKeys(Socials(t, p))
  {
    hide Hexaco, Screens, Word;
    RuleNames();
  }

  lemma StyleIds(t: Text, p: Persona)
    ensures NoDirectiveIds(Styles(t, p)) && UniqueKeys(Styles(t, p))
  {
    hide Dial, Stay, Word;
    RuleNames();
  }

  lemma SoftIds(t: Text, p: Persona)
    ensures forall r :: r in Soft(t, p) ==> r.id != [] && r.id[0] != INITIAL
  {
    hide Reflexes, Socials, Styles;
    ReflexIds(t, p);
    SocialIds(t, p);
    StyleIds(t, p);
  }

  lemma FirstDirective(t: Text, p: Persona, f: Facts, i: nat) returns (k: nat)
    requires i < |p.directives| && Applies(t, p.directives, i, f)
    ensures DeniedBy(t, p, f, k)
  {
    hide DirectiveRule, Applies, Speaks, VerdictOf, FirstVerdict, SortStable, Soft, DirectiveRules;
    var rules := CompiledRules(t, p);
    var own := DirectiveRule(t, i, p.directives[i]);
    DirectiveFires(t, p.directives, i, f);
    DirectiveMembers(t, p.directives);
    assert own.value in DirectiveRules(t, p.directives);
    assert own.value in rules && Speaks(own.value, f);
    GateIsHighestRanked(rules, f);
    var r :| SpeaksFirst(r, rules, f) && FirstVerdict(SortStable(RuleAtMost, rules), f) == VerdictOf(r);
    assert r.salience >= SAL_DIRECTIVE;
    SoftSalience(t, p);
    assert r !in Soft(t, p);
    k :| 0 <= k < |p.directives| && DirectiveRule(t, k, p.directives[k]) == Some(r);
    DirectiveFires(t, p.directives, k, f);
  }

  /** In particular, an action named by an unconditional hard directive is denied, never replaced. */
  lemma DirectiveDenies(t: Text, p: Persona, f: Facts, i: nat, action: Name)
    requires i < |p.directives| && p.directives[i].hard && Verb(t, p.directives[i]) != []
    requires !Narrowed(t, p.directives[i]) && t.lower(action) == t.lower(Verb(t, p.directives[i]))
    ensures FirstVerdict(SortStable(RuleAtMost, CompiledRules(t, p)), f.(action := action)).Deny?
  {
    var g := f.(action := action);
    var k := FirstDirective(t, p, g, i);
    DirectiveFires(t, p.directives, k, g);
  }

  // ----- the compiled table is a set of rules -----

  ghost predicate Apart(a: Rule, b: Rule) {
    a.salience != b.salience || a.id != b.id
  }

  lemma UniqueAppend(a: seq<Rule>, b: seq<Rule>)
    requires UniqueKeys(a) && UniqueKeys(b)
    requires forall x, y :: x in a && y in b ==> Apart(x, y)
    ensures UniqueKeys(a + b)
  {
    forall i, j | 0 <= i < j < |a + b|
      ensures (a + b)[i].salience != (a + b)[j].salience || (a + b)[i].id != (a + b)[j].id
    {
      if i < |a| <= j {
        assert Apart(a[i], b[j - |a|]);
      }
    }
  }

  lemma {:induction false} DecimalDigits(n: nat)
    ensures Decimal(n) != [] && forall k :: 0 <= k < |Decimal(n)| ==> 48 <= Decimal(n)[k] < 58
  {
    if n >= 10 {
      DecimalDigits(n / 10);
    }
  }

  lemma {:induction false} DecimalInjective(m: nat, n: nat)
    requires Decimal(m) == Decimal(n)
    ensures m == n
  {
    DecimalDigits(m / 10);
    DecimalDigits(n / 10);
    var d, e := Decimal(m), Decimal(n);
    assert d[|d| - 1] == 48 + m % 10 && e[|e| - 1] == 48 + n % 10;
    if m >= 10 && n >= 10 {
      assert d[..|d| - 1] == Decimal(m / 10) && e[..|e| - 1] == Decimal(n / 10);
      DecimalInjective(m / 10, n / 10);
    }
  }

  predicate NoTag(d: Key) {
    forall k :: 0 <= k < |d| ==> d[k] != 95
  }

  /** What stands before the first underscore is determined. */
  lemma {:induction false} BeforeTag(d: Key, e: Key, u: Key, v: Key)
    requires NoTag(d) && NoTag(e) && d + ([95] + u) == e + ([95] + v)
    ensures d == e
  {
    var a, b := d + ([95] + u), e + ([95] + v);
    assert a[0] == (if d == [] then 95 else d[0]) && b[0] == if e == [] then 95 else e[0];
    if d != [] && e != [] {
      assert a[1..] == d[1..] + ([95] + u) && b[1..] == e[1..] + ([95] + v);
      BeforeTag(d[1..], e[1..], u, v);
      assert d == [d[0]] + d[1..] && e == [e[0]] + e[1..];
    }
  }

  lemma IdsApart(i: nat, j: nat, u: Name, v: Name)
    requires i != j
    ensures DirectiveId(i, u) != DirectiveId(j, v)
  {
    hide Word, Decimal;
    var n := |Word("directive_")|;
    var a, b := Decimal(i) + ([95] + u), Decimal(j) + ([95] + v);
    assert a == DirectiveId(i, u)[n..] && b == DirectiveId(j, v)[n..];
    DecimalDigits(i);
    DecimalDigits(j);
    if a == b {
      BeforeTag(Decimal(i), Decimal(j), u, v);
      DecimalInjective(i, j);
    }
  }

  lemma {:induction false} DirectivesUnique(t: Text, ds: seq<Directive>)
    ensures UniqueKeys(DirectiveRules(t, ds))
  {
    if ds != [] {
      var init, n := ds[..|ds| - 1], |ds| - 1;
      DirectivesUnique(t, init);
      var last := DirectiveRule(t, n, ds[n]);
      if last.Some? {
        DirectiveMembers(t, init);
        forall x | x in DirectiveRules(t, init) ensures Apart(x, last.value) {
          var i :| 0 <= i < |init| && DirectiveRule(t, i, init[i]) == Some(x);
          IdsApart(i, n, Verb(t, init[i]), Verb(t, ds[n]));
        }
        UniqueAppend(DirectiveRules(t, init), [last.value]);
      }
    }
  }

  /** The compiled table has unique keys: by `GateForgetsOrder` only its set of rules matters. */
  lemma CompiledKeysUnique(t: Text, p: Persona)
    ensures UniqueKeys(CompiledRules(t, p))
  {
    ReflexIds(t, p);
    SocialIds(t, p);
    StyleIds(t, p);
    Saliences(t, p);
    DirectivesUnique(t, p.directives);
    hide Reflexes, Socials, Styles, DirectiveRules, UniqueKeys;
    UniqueAppend(Reflexes(t, p), Socials(t, p));
    UniqueAppend(Reflexes(t, p) + Socials(t, p), Styles(t, p));
    UniqueAppend(Soft(t, p), DirectiveRules(t, p.directives));
  }

  lemma Saliences(t: Text, p: Persona)
    ensures forall r :: r in Reflexes(t, p) ==> r.salience == SAL_REFLEX
    ensures forall r :: r in Socials(t, p) ==> r.salience == SAL_SOCIAL
    ensures forall r :: r in Styles(t, p) ==> r.salience == SAL_STYLE
    ensures forall r :: r in DirectiveRules(t, p.directives) ==> r.salience == SAL_DIRECTIVE
  {
    hide Word, Dial, Hexaco, LossNormal, FleeBelow, StrongerBy, Screens;
    DirectiveMembers(t, p.directives);
    hide DirectiveRules, DirectiveId;
  }

  // ----- the table and the engine together -----

  lemma {:induction false} WeightBounds(rules: seq<Rule>, f: Facts, o: Name)
    requires forall r :: r in rules ==> Share(r, f, o) <= 0.0
    ensures Weight(rules, f, o) <= 0.0
    ensures (forall r :: r in rules ==> Share(r, f, o) == 0.0) ==> Weight(rules, f, o) == 0.0
  {
    if rules != [] {
      var init := rules[..|rules| - 1];
      assert rules == init + [rules[|rules| - 1]];
      assert forall r :: r in init ==> r in rules;
      WeightBounds(init, f, o);
    }
  }

  /** The compiled rules behind the first one. */
  function Rest(t: Text, p: Persona): seq<Rule> {
    var vetoes := If(Dial(p.aggression) < 0.5, NoAttackStronger(t, StrongerBy(p)))
                  + If(Dial(p.aggression) < 0.3, WontStrikeFirst(t));
    vetoes + Socials(t, p) + Styles(t, p) + DirectiveRules(t, p.directives)
  }

  lemma RegroupRest<T>(x: T, a: seq<T>, b: seq<T>, c: seq<T>, d: seq<T>, e: seq<T>)
    ensures ((([x] + a) + b) + c + d) + e == [x] + ((a + b) + c + d + e)
  {
  }

  lemma FleeFirst(t: Text, p: Persona)
    ensures CompiledRules(t, p) == [FleeWhenHurt(FleeBelow(p))] + Rest(t, p)
  {
    hide Dial, If, FleeWhenHurt, FleeBelow, NoAttackStronger, WontStrikeFirst, StrongerBy, Socials, Styles,
      DirectiveRules;
    RegroupRest(FleeWhenHurt(FleeBelow(p)), If(Dial(p.aggression) < 0.5, NoAttackStronger(t, StrongerBy(p))),
                If(Dial(p.aggression) < 0.3, WontStrikeFirst(t)), Socials(t, p), Styles(t, p),
                DirectiveRules(t, p.directives));
  }

  predicate Harmless(t: Text, p: Persona, r: Rule) {
    match r.effect
    case Bias(w) => w == map[Word("continue") := Stay(p), Word("switch") := -Stay(p), Word("explore") := -Stay(p)]
    case Veto(options, _) => options == []
    case Substitute(action, _, _) => action == Word("examine_offer")
    case Inject(_, _) => true
  }

  lemma DirectivesHarmless(t: Text, p: Persona)
    ensures forall r :: r in DirectiveRules(t, p.directives) ==> Harmless(t, p, r)
  {
    hide Word, Dial, DirectiveId;
    DirectiveMembers(t, p.directives);
    hide DirectiveRules;
  }

  lemma SoftHarmless(t: Text, p: Persona)
    ensures Harmless(t, p, NoAttackStronger(t, StrongerBy(p))) && Harmless(t, p, WontStrikeFirst(t))
    ensures forall r :: r in Socials(t, p) ==> Harmless(t, p, r)
    ensures forall r :: r in Styles(t, p) ==> Harmless(t, p, r)
  {
    hide Word, Dial, Hexaco, Screens, StrongerBy;
  }

  lemma RestEffects(t: Text, p: Persona)
    ensures CompiledRules(t, p) == [FleeWhenHurt(FleeBelow(p))] + Rest(t, p)
    ensures forall r :: r in Rest(t, p) ==> Harmless(t, p, r)
  {
    hide Harmless, Socials, Styles, DirectiveRules, CompiledRules, FleeWhenHurt, NoAttackStronger, WontStrikeFirst;
    hide Dial, FleeBelow, StrongerBy;
    FleeFirst(t, p);
    DirectivesHarmless(t, p);
    SoftHarmless(t, p);
  }

  lemma FleeScores(t: Text, p: Persona, f: Facts, o: Name)
    requires f.hpMax > 0 && HPFraction(f) < 0.1 && o != Word("continue")
    ensures var rules := CompiledRules(t, p);
            if o == Word("flee") then Weight(rules, f, o) == 0.9 && Backing(rules, f, o) == 0.85
            else Weight(rules, f, o) <= 0.0
  {
    var rules, rest, flee := CompiledRules(t, p), Rest(t, p), FleeWhenHurt(FleeBelow(p));
    RestEffects(t, p);
    assert |Word("flee")| == 4 && |Word("switch")| == 6 && |Word("explore")| == 7 && |Word("fight")| == 5
           && |Word("continue")| == 8;
    hide Word, CompiledRules, Rest, Weight, Backing, FleeBelow, Dial;
    forall r | r in rest
      ensures Share(r, f, o) <= 0.0 && (o == Word("flee") ==> Share(r, f, o) == 0.0 && !Backs(r, f, o))
    {
    }
    WeightBounds(rest, f, o);
    WeightFirst(flee, rest, f, o);
    BackingMeans(rules, f, o);
    assert Fires(flee, f) && flee in rules;
  }

  lemma {:induction false} AllowedAll(options: seq<Name>)
    ensures Allowed(options, {}) == options
  {
    if options != [] {
      AllowedAll(options[..|options| - 1]);
      assert options == options[..|options| - 1] + [options[|options| - 1]];
    }
  }

  /** The vetoes of a compiled table bind at the action seam only: they forbid no option of a decision. */
  lemma CompiledForbidsNoOption(t: Text, p: Persona, f: Facts)
    ensures Forbidden(SortStable(RuleAtMost, CompiledRules(t, p)), f) == {}
  {
    hide Forbidden, SortStable, Fires;
    var rules := CompiledRules(t, p);
    RestEffects(t, p);
    SortMembers(RuleAtMost, rules);
    hide CompiledRules, Rest, Dial, Word;
    forall o ensures o !in Forbidden(SortStable(RuleAtMost, rules), f) {
      ForbiddenMeans(SortStable(RuleAtMost, rules), f, o);
    }
  }

  /** The decision seam of an engine over a compiled table, as `Engine.TryDecide` promises it. */
  ghost predicate CompiledDecision(t: Text, p: Persona, f: Facts, options: seq<Name>, d: Outcome) {
    var rules := SortStable(RuleAtMost, CompiledRules(t, p));
    var sub := FirstForce(rules, Deciding(f), options);
    if sub.Some?
      then d == Hit(sub.value.effect.action, sub.value.confidence, sub.value.effect.reason)
      else Decided(Scored(rules, Deciding(f)), DecisionFloor(p), options,
                   Allowed(options, Forbidden(rules, Deciding(f))), d)
  }

  /** Position `i` alone says flee, and no other says carry on. */
  predicate FleeAt(options: seq<Name>, i: nat) {
    && i < |options| && options[i] == Word("flee")
    && forall j :: 0 <= j < |options| && j != i ==> options[j] != Word("flee") && options[j] != Word("continue")
  }

  lemma FleeWins(t: Text, p: Persona, f: Facts, options: seq<Name>, i: nat)
    requires f.hpMax > 0 && HPFraction(f) < 0.1 && FleeAt(options, i)
    ensures var s := Scored(SortStable(RuleAtMost, CompiledRules(t, p)), f);
            && s.backing(options[i]) == 0.85 && Wins(s, DecisionFloor(p), options, i)
            && forall k: nat :: Wins(s, DecisionFloor(p), options, k) ==> k == i
  {
    var rules, sorted := CompiledRules(t, p), SortStable(RuleAtMost, CompiledRules(t, p));
    var s := Scored(sorted, f);
    assert |Word("flee")| != |Word("continue")|;
    hide Word, CompiledRules, SortStable, Weight, Backing;
    FleeScores(t, p, f, options[i]);
    WeightForgetsOrder(rules, f, options[i]);
    BackingForgetsOrder(rules, f, options[i]);
    forall j | 0 <= j < |options| && j != i ensures s.weight(options[i]) - s.weight(options[j]) >= DECIDE_MARGIN {
      FleeScores(t, p, f, options[j]);
      WeightForgetsOrder(rules, f, options[j]);
    }
    var w := s.weight(options[i]);
    forall k: nat | Wins(s, DecisionFloor(p), options, k) ensures k == i {
    }
  }

  /** Every persona flees when it is below a tenth of its hit points and may flee: no dial, directive or
      floor outweighs the reflex, whatever else is on offer short of carrying
      on or examining a trade. */
  lemma HurtHostFlees(t: Text, p: Persona, f: Facts, options: seq<Name>, i: nat, d: Outcome)
    requires f.hpMax > 0 && HPFraction(f) < 0.1 && FleeAt(options, i)
    requires Word("examine_offer") !in options && CompiledDecision(t, p, f, options, d)
    ensures d.Hit? && d.choice == Word("flee") && d.confidence == 0.85
  {
    hide Word, CompiledRules, SortStable, Weight, Backing, Forbidden, FirstForce, StablySorts;
    OnlyTradesAreForced(t, p, Deciding(f), options);
    CompiledForbidsNoOption(t, p, Deciding(f));
    AllowedAll(options);
    FleeWins(t, p, Deciding(f), options, i);
    hide Scored, Wins;
  }

  /** Nothing is forced unless an offer may be examined. */
  lemma OnlyTradesAreForced(t: Text, p: Persona, f: Facts, options: seq<Name>)
    requires Word("examine_offer") !in options
    ensures FirstForce(SortStable(RuleAtMost, CompiledRules(t, p)), f, options).None?
  {
    hide SortStable, FirstForce, Fires;
    var rules := CompiledRules(t, p);
    RestEffects(t, p);
    hide CompiledRules, Rest, Dial, Word;
    ForceIsHighestRanked(rules, f, options);
  }
}
