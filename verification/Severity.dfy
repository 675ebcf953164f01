/** Deterministic severity classification of health observations
    (tools/internal/healthreport/severity.go). */
module Severity {
  import opened Ordering

  /** `Other` is whatever else a rule's `level` or an old facts file holds. */
  datatype Severity = Info | Warn | Crit | Other(name: string)

  predicate Actionable(s: Severity) {
    s.Warn? || s.Crit?
  }

  function Rank(s: Severity): nat {
    match s
    case Warn => 1
    case Crit => 2
    case _ => 0
  }

  /** A timestamp field: absent, present but unparseable, or an instant in
      seconds. */
  datatype Stamp = Missing | Garbled | At(time: int)

  /** A JSON value. Printed forms, and the number a text parses to, come with
      the value: the float printer and parser are not modelled. */
  datatype Value =
    | Nil
    | Flag(on: bool)
    | Number(number: real, shown: string)
    | Text(text: string, parsed: Option<real>)

  function Show(v: Value): string {
    match v
    case Nil => "<nil>"
    case Flag(on) => if on then "true" else "false"
    case Number(_, shown) => shown
    case Text(text, _) => text
  }

  function Numeric(v: Value): Option<real> {
    match v
    case Number(n, _) => Some(n)
    case Text(_, parsed) => parsed
    case _ => None
  }

  const FALSE_STRINGS: set<string> := {"false", "0", "no", "none", "null", ""}

  function Lower(s: string): string {
    seq(|s|, i requires 0 <= i < |s| =>
      if 'A' <= s[i] <= 'Z' then (s[i] as int + 32) as char else s[i])
  }

  predicate IsSpace(c: char) {
    c == ' ' || c == '\t' || c == '\n' || c == '\r'
  }

  function Trim(s: string): string {
    if s != [] && IsSpace(s[0]) then Trim(s[1..])
    else if s != [] && IsSpace(s[|s| - 1]) then Trim(s[..|s| - 1])
    else s
  }

  predicate Truthy(v: Value) {
    match v
    case Nil => false
    case Flag(on) => on
    case Number(n, _) => n != 0.0
    case Text(text, _) => Lower(Trim(text)) !in FALSE_STRINGS
  }

  /** `NoRule` is the empty type of a kind that has no rule. */
  datatype RuleType =
    | NoRule | Threshold | ThresholdOrSpike | Equals | NotEquals
    | TruthyRule | FalsyRule | Present | NewOnly | UnknownType

  datatype Direction = Above | Below | Sideways

  /** One entry of rules.yml. A missing direction has already become `Above`. */
  datatype Rule = Rule(
    kind: RuleType,
    direction: Direction,
    warn: Option<real>,
    crit: Option<real>,
    notice: Option<real>,
    minAgeDays: Option<real>,
    spikeFactor: Option<real>,
    spikeFloor: Option<real>,
    spikeLevel: Option<Severity>,
    critValues: seq<Value>,
    warnValues: seq<Value>,
    okValues: seq<Value>,
    level: Option<Severity>,
    subjects: seq<string>)

  const NO_RULE := Rule(NoRule, Above, None, None, None, None, None, None, None, [], [], [], None, [])

  type Rules = map<string, Rule>

  function RuleFor(rules: Rules, kind: string): Rule {
    if kind in rules then rules[kind] else NO_RULE
  }

  /** `evidence` is the entry "kind" of the observation's evidence. */
  datatype Observation = Observation(
    id: string,
    subject: string,
    kind: string,
    severity: Severity,
    value: Value,
    previousValue: Value,
    firstSeen: Stamp,
    notice: bool,
    threshold: Option<real>,
    evidence: Option<string>)

  const SECONDS_PER_DAY := 86400

  /** Days between a first sighting and now, when both are known. */
  function AgeDays(firstSeen: Stamp, now: int): Option<real> {
    if firstSeen.At? then Some((now - firstSeen.time) as real / SECONDS_PER_DAY as real) else None
  }

  predicate ValuesContain(values: seq<Value>, want: string) {
    exists i :: 0 <= i < |values| && Show(values[i]) == want
  }

  predicate Breached(direction: Direction, value: real, limit: Option<real>) {
    limit.Some? &&
    ((direction.Above? && value > limit.value) || (direction.Below? && value < limit.value))
  }

  /** Too young for a rule with a minimum age; an unknown age counts as young. */
  predicate TooYoung(rule: Rule, firstSeen: Stamp, now: int) {
    rule.minAgeDays.Some? &&
    var age := AgeDays(firstSeen, now);
    age.None? || age.value < rule.minAgeDays.value
  }

  function LevelOf(level: Option<Severity>): Severity {
    if level.Some? then level.value else Warn
  }

  /** What classification writes on an observation. */
  datatype Verdict = Verdict(severity: Severity, notice: bool, threshold: Option<real>)

  function Quiet(obs: Observation): Verdict {
    Verdict(Info, false, obs.threshold)
  }

  function ClassifyThreshold(obs: Observation, rule: Rule, now: int): Verdict {
    var value := Numeric(obs.value);
    if value.None? then Quiet(obs)
    else if Breached(rule.direction, value.value, rule.crit) then
      if TooYoung(rule, obs.firstSeen, now) then Quiet(obs) else Verdict(Crit, false, rule.crit)
    else if Breached(rule.direction, value.value, rule.warn) then
      if TooYoung(rule, obs.firstSeen, now) then Quiet(obs) else Verdict(Warn, false, rule.warn)
    else if Breached(rule.direction, value.value, rule.notice) then
      Verdict(Info, true, rule.notice)
    else Quiet(obs)
  }

  /** The value jumped against the last run's value. */
  predicate Spiked(obs: Observation, rule: Rule) {
    var value, previous := Numeric(obs.value), Numeric(obs.previousValue);
    var factor := if rule.spikeFactor.Some? then rule.spikeFactor.value else 3.0;
    var floor := if rule.spikeFloor.Some? then rule.spikeFloor.value else 0.0;
    && value.Some? && previous.Some?
    && previous.value > 0.0 && value.value >= floor && value.value >= previous.value * factor
  }

  function ClassifySpike(obs: Observation, rule: Rule): Verdict {
    var value := Numeric(obs.value);
    if value.None? then Quiet(obs)
    else if Breached(rule.direction, value.value, rule.crit) then Verdict(Crit, false, rule.crit)
    else if Breached(rule.direction, value.value, rule.warn) then Verdict(Warn, false, rule.warn)
    else if Spiked(obs, rule) then Quiet(obs).(severity := LevelOf(rule.spikeLevel))
    else Quiet(obs)
  }

  function Classify(obs: Observation, rule: Rule, isNew: bool, now: int): Verdict {
    if rule.kind.NoRule? then Quiet(obs)
    else if rule.subjects != [] && obs.subject !in rule.subjects then Quiet(obs)
    else
      var loud := Quiet(obs).(severity := LevelOf(rule.level));
      match rule.kind
      case Threshold => ClassifyThreshold(obs, rule, now)
      case ThresholdOrSpike => ClassifySpike(obs, rule)
      case Equals =>
        var shown := Show(obs.value);
        Quiet(obs).(severity :=
          if ValuesContain(rule.critValues, shown) then Crit
          else if ValuesContain(rule.warnValues, shown) then Warn
          else Info)
      case NotEquals => if ValuesContain(rule.okValues, Show(obs.value)) then Quiet(obs) else loud
      case TruthyRule => if Truthy(obs.value) then loud else Quiet(obs)
      case FalsyRule => if Truthy(obs.value) then Quiet(obs) else loud
      case Present => if TooYoung(rule, obs.firstSeen, now) then Quiet(obs) else loud
      case NewOnly => if isNew then loud else Quiet(obs)
      case _ => Quiet(obs)
  }

  function Classified(obs: Observation, rules: Rules, newIds: set<string>, now: int): Observation {
    var verdict := Classify(obs, RuleFor(rules, obs.kind), obs.id in newIds, now);
    obs.(severity := verdict.severity, notice := verdict.notice, threshold := verdict.threshold)
  }

  function ClassifiedAll(observations: seq<Observation>, rules: Rules, newIds: set<string>,
                         now: int): (r: seq<Observation>)
  {
    seq(|observations|, i requires 0 <= i < |observations| =>
      Classified(observations[i], rules, newIds, now))
  }

  /** Classifies every observation in place. */
  method Apply(observations: array<Observation>, rules: Rules, newIds: set<string>, now: int)
    modifies observations
    ensures observations[..] == ClassifiedAll(old(observations[..]), rules, newIds, now)
  {
    for i := 0 to observations.Length
      invariant forall j :: 0 <= j < i ==>
        observations[j] == Classified(old(observations[j]), rules, newIds, now)
      invariant forall j :: i <= j < observations.Length ==> observations[j] == old(observations[j])
    {
      observations[i] := Classified(observations[i], rules, newIds, now);
    }
  }

  /** A rule that waits: no severity before the condition has a minimum age. */
  predicate AgeGated(rule: Rule, days: real) {
    && (rule.kind.Threshold? || rule.kind.Present?)
    && rule.minAgeDays.Some? && rule.minAgeDays.value >= days
  }

  /** Under an age-gated rule an observation whose age is unknown, or below the
      gate, is info, whatever its value. */
  lemma YoungStaysInfo(obs: Observation, rule: Rule, days: real, isNew: bool, now: int)
    requires AgeGated(rule, days)
    requires obs.firstSeen.At? ==> (now - obs.firstSeen.time) as real / SECONDS_PER_DAY as real < days
    ensures Classify(obs, rule, isNew, now).severity == Info
  {
    assert TooYoung(rule, obs.firstSeen, now);
  }
}
