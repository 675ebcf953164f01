/** Which values lead to which level, told by comparing them with what the rule says
    (tools/internal/healthreport/severity.go). */
module Classification {
  import opened Ordering
  import opened Severity

  // ----- limits ---------------------------------------------------------

  /** The value lies beyond the limit, on the side that the rule watches. */
  predicate Past(rule: Rule, limit: Option<real>, value: real) {
    match limit
    case None => false
    case Some(l) => (rule.direction == Above && l < value) || (rule.direction == Below && value < l)
  }

  /** The rule looks at the subject. */
  predicate Applies(rule: Rule, o: Observation) {
    |rule.subjects| == 0 || exists i :: 0 <= i < |rule.subjects| && rule.subjects[i] == o.subject
  }

  /** The rule asks for an age in days that the observation is not known to have. */
  predicate Waiting(rule: Rule, o: Observation, now: int) {
    match rule.minAgeDays
    case None => false
    case Some(days) =>
      match o.firstSeen
      case At(time) => (now - time) as real < days * 86400.0
      case _ => true
  }

  lemma WaitingIsYoung(rule: Rule, o: Observation, now: int)
    ensures TooYoung(rule, o.firstSeen, now) <==> Waiting(rule, o, now)
  {
    if rule.minAgeDays.Some? && o.firstSeen.At? {
      var seconds, days := (now - o.firstSeen.time) as real, rule.minAgeDays.value;
      assert SECONDS_PER_DAY as real == 86400.0;
      assert seconds / 86400.0 < days <==> seconds < days * 86400.0;
    }
  }

  /** A threshold rule that applies to a number, and does not wait: crit iff the crit
      limit is passed, warn iff only the warn limit is, else info. The limit passed is
      recorded; a notice is given iff the notice limit is the only one passed. */
  lemma ThresholdTold(o: Observation, rule: Rule, isNew: bool, now: int)
    requires rule.kind.Threshold? && Applies(rule, o) && Numeric(o.value).Some? && !Waiting(rule, o, now)
    ensures var v, value := Classify(o, rule, isNew, now), Numeric(o.value).value;
      var crit, warn, notice := Past(rule, rule.crit, value), Past(rule, rule.warn, value),
                                Past(rule, rule.notice, value);
      && (v.severity == Crit <==> crit)
      && (v.severity == Warn <==> warn && !crit)
      && (v.severity == Info <==> !crit && !warn)
      && v.threshold == (if crit then rule.crit else if warn then rule.warn else if notice then rule.notice
                         else o.threshold)
      && (v.notice <==> notice && !crit && !warn)
  {
    WaitingIsYoung(rule, o, now);
  }

  /** While it waits nothing is raised and no limit is recorded; below both alert limits
      there is nothing to wait for, and a notice is still given. */
  lemma WaitingThresholdTold(o: Observation, rule: Rule, isNew: bool, now: int)
    requires rule.kind.Threshold? && Applies(rule, o) && Numeric(o.value).Some? && Waiting(rule, o, now)
    ensures var v, value := Classify(o, rule, isNew, now), Numeric(o.value).value;
      var alert, notice := Past(rule, rule.crit, value) || Past(rule, rule.warn, value), Past(rule, rule.notice, value);
      && v.severity == Info
      && (v.notice <==> notice && !alert)
      && v.threshold == if notice && !alert then rule.notice else o.threshold
  {
    WaitingIsYoung(rule, o, now);
  }

  /** For limits and jumps a text that parses is the number it parses to, now and as the last
      value; a flag, nothing, and any other text are no numbers. */
  lemma TextsAreNumbers(o: Observation, rule: Rule, isNew: bool, now: int, n: real, shown: string, v: Value)
    requires rule.kind.Threshold? || rule.kind.ThresholdOrSpike?
    ensures Classify(o.(value := Text(shown, Some(n))), rule, isNew, now)
         == Classify(o.(value := Number(n, shown)), rule, isNew, now)
    ensures Classify(o.(previousValue := Text(shown, Some(n))), rule, isNew, now)
         == Classify(o.(previousValue := Number(n, shown)), rule, isNew, now)
    ensures v == Nil || v.Flag? || (v.Text? && v.parsed == None) ==>
      && Classify(o.(value := v), rule, isNew, now) == Verdict(Info, false, o.threshold)
      && Classify(o.(previousValue := v), rule, isNew, now) == Classify(o.(previousValue := Nil), rule, isNew, now)
    ensures Numeric(Number(n, shown)) == Some(n)
  {
  }

  // ----- jumps ----------------------------------------------------------

  /** At least the factor times a positive last number, and not below the floor; without
      a factor it is three, without a floor zero. */
  predicate Jumped(rule: Rule, value: real, last: real) {
    && last > 0.0
    && (match rule.spikeFactor case Some(f) => last * f <= value case None => last * 3.0 <= value)
    && (match rule.spikeFloor case Some(f) => f <= value case None => 0.0 <= value)
  }

  /** The plain limits decide first, whatever the last value was; only a number within
      them is looked at for a jump, which has a level of its own. */
  lemma SpikeTold(o: Observation, rule: Rule, isNew: bool, now: int)
    requires rule.kind.ThresholdOrSpike? && Applies(rule, o) && Numeric(o.value).Some?
    ensures var v, value, last := Classify(o, rule, isNew, now), Numeric(o.value).value, Numeric(o.previousValue);
      var crit, warn := Past(rule, rule.crit, value), Past(rule, rule.warn, value);
      var jump := last.Some? && Jumped(rule, value, last.value);
      && (crit ==> v.severity == Crit && v.threshold == rule.crit)
      && (warn && !crit ==> v.severity == Warn && v.threshold == rule.warn)
      && (!crit && !warn ==> v.threshold == o.threshold)
      && (!crit && !warn && jump ==> v.severity == match rule.spikeLevel case Some(level) => level case None => Warn)
      && (!crit && !warn && !jump ==> v.severity == Info)
      && !v.notice
  {
  }

  // ----- words ----------------------------------------------------------

  ghost predicate Lists(values: seq<Value>, v: Value) {
    exists w :: w in values && Show(w) == Show(v)
  }

  lemma ContainsIsListed(values: seq<Value>, v: Value)
    ensures ValuesContain(values, Show(v)) <==> Lists(values, v)
  {
    if ValuesContain(values, Show(v)) {
      var i :| 0 <= i < |values| && Show(values[i]) == Show(v);
      assert values[i] in values;
    }
  }

  /** What a rule without a level raises. */
  function Raised(rule: Rule): Severity {
    match rule.level case Some(level) => level case None => Warn
  }

  lemma EqualsTold(o: Observation, rule: Rule, isNew: bool, now: int)
    requires rule.kind.Equals? && Applies(rule, o)
    ensures var v := Classify(o, rule, isNew, now);
      && (v.severity == Crit <==> Lists(rule.critValues, o.value))
      && (v.severity == Warn <==> Lists(rule.warnValues, o.value) && !Lists(rule.critValues, o.value))
      && (v.severity == Info <==> !Lists(rule.warnValues, o.value) && !Lists(rule.critValues, o.value))
  {
    ContainsIsListed(rule.critValues, o.value);
    ContainsIsListed(rule.warnValues, o.value);
  }

  lemma NotEqualsTold(o: Observation, rule: Rule, isNew: bool, now: int)
    requires rule.kind.NotEquals? && Applies(rule, o)
    ensures Classify(o, rule, isNew, now).severity == if Lists(rule.okValues, o.value) then Info else Raised(rule)
  {
    ContainsIsListed(rule.okValues, o.value);
  }

  /** Words are compared as they are printed, so a flag equals its name. */
  lemma PrintedAlike()
    ensures Lists([Text("true", None)], Flag(true)) && Lists([Flag(false)], Text("false", None))
    ensures Lists([Text("<nil>", None)], Nil) && !Lists([Flag(true)], Flag(false))
    ensures forall n: real, s, parsed :: Lists([Number(n, s)], Text(s, parsed))
  {
    assert |Show(Flag(true))| == 4 && |Show(Flag(false))| == 5;
    assert Text("true", None) in [Text("true", None)] && Flag(false) in [Flag(false)];
    assert Text("<nil>", None) in [Text("<nil>", None)];
    forall n: real, s, parsed ensures Lists([Number(n, s)], Text(s, parsed)) {
      assert Number(n, s) in [Number(n, s)];
    }
  }

  // ----- truth ----------------------------------------------------------

  /** The word, in letters of either case. */
  predicate Spells(s: string, word: string) {
    |s| == |word| && forall i :: 0 <= i < |s| ==>
      s[i] == word[i] || ('a' <= word[i] <= 'z' && s[i] as int == word[i] as int - 32)
  }

  predicate Blank(s: string) {
    forall i :: 0 <= i < |s| ==> s[i] == ' ' || s[i] == '\t' || s[i] == '\n' || s[i] == '\r'
  }

  /** The text is the word, in letters of either case, with blanks around it. */
  ghost predicate Says(s: string, word: string) {
    exists a, w, b :: s == a + w + b && Blank(a) && Blank(b) && Spells(w, word)
  }

  lemma {:induction false} TrimLeaves(s: string) returns (a: string, b: string)
    ensures s == a + Trim(s) + b && Blank(a) && Blank(b)
    decreases |s|
  {
    if s != [] && IsSpace(s[0]) {
      a, b := TrimLeaves(s[1..]);
      a := [s[0]] + a;
    } else if s != [] && IsSpace(s[|s| - 1]) {
      a, b := TrimLeaves(s[..|s| - 1]);
      b := b + [s[|s| - 1]];
    } else {
      a, b := "", "";
    }
  }

  predicate Edged(s: string) {
    s != "" ==> !IsSpace(s[0]) && !IsSpace(s[|s| - 1])
  }

  lemma {:induction false} TrimFinds(a: string, w: string, b: string)
    requires Blank(a) && Blank(b) && Edged(w)
    ensures Trim(a + w + b) == w
    decreases |a| + |b|
  {
    var s := a + w + b;
    if a != "" {
      assert s[1..] == a[1..] + w + b && IsSpace(s[0]);
      TrimFinds(a[1..], w, b);
    } else if b != "" && w != "" {
      assert s[..|s| - 1] == a + w + b[..|b| - 1] && s[|s| - 1] == b[|b| - 1];
      TrimFinds(a, w, b[..|b| - 1]);
    } else if b != "" {
      assert s == b && s[1..] == a + w + b[1..] && IsSpace(s[0]);
      TrimFinds(a, w, b[1..]);
    } else {
      assert s == w;
    }
  }

  lemma LowerSpells(s: string, word: string)
    requires forall i :: 0 <= i < |word| ==> !('A' <= word[i] <= 'Z')
    ensures Lower(s) == word <==> Spells(s, word)
  {
    if Spells(s, word) {
      forall i | 0 <= i < |s| ensures Lower(s)[i] == word[i] { }
    }
    if Lower(s) == word {
      forall i | 0 <= i < |s|
        ensures s[i] == word[i] || ('a' <= word[i] <= 'z' && s[i] as int == word[i] as int - 32)
      {
        assert Lower(s)[i] == word[i];
      }
    }
  }

  predicate LowerWord(word: string) {
    forall i :: 0 <= i < |word| ==> 'a' <= word[i] <= 'z' || word[i] == '0'
  }

  lemma SaysIffTrimmed(s: string, word: string)
    requires LowerWord(word)
    ensures Says(s, word) <==> Lower(Trim(s)) == word
  {
    LowerSpells(Trim(s), word);
    if Lower(Trim(s)) == word {
      var a, b := TrimLeaves(s);
    }
    if Says(s, word) {
      var a, w, b :| s == a + w + b && Blank(a) && Blank(b) && Spells(w, word);
      assert Edged(w);
      TrimFinds(a, w, b);
    }
  }

  /** Nothing, false, zero, and a text that says one of six words. */
  ghost predicate MeansNo(v: Value) {
    match v
    case Nil => true
    case Flag(on) => !on
    case Number(n, _) => n == 0.0
    case Text(s, _) =>
      Says(s, "false") || Says(s, "0") || Says(s, "no") || Says(s, "none") || Says(s, "null") || Says(s, "")
  }

  lemma TruthTold(v: Value)
    ensures Truthy(v) <==> !MeansNo(v)
  {
    if v.Text? {
      SaysIffTrimmed(v.text, "false");
      SaysIffTrimmed(v.text, "0");
      SaysIffTrimmed(v.text, "no");
      SaysIffTrimmed(v.text, "none");
      SaysIffTrimmed(v.text, "null");
      SaysIffTrimmed(v.text, "");
    }
  }

  lemma TruthyRulesTold(o: Observation, rule: Rule, isNew: bool, now: int)
    requires Applies(rule, o)
    ensures rule.kind.TruthyRule? ==>
      Classify(o, rule, isNew, now).severity == if MeansNo(o.value) then Info else Raised(rule)
    ensures rule.kind.FalsyRule? ==>
      Classify(o, rule, isNew, now).severity == if MeansNo(o.value) then Raised(rule) else Info
  {
    TruthTold(o.value);
  }

  // ----- presence -------------------------------------------------------

  lemma PresenceTold(o: Observation, rule: Rule, isNew: bool, now: int)
    requires Applies(rule, o)
    ensures rule.kind.Present? ==>
      Classify(o, rule, isNew, now).severity == if Waiting(rule, o, now) then Info else Raised(rule)
    ensures rule.kind.NewOnly? ==>
      Classify(o, rule, isNew, now).severity == if isNew then Raised(rule) else Info
  {
    WaitingIsYoung(rule, o, now);
  }

  /** What no rule is for: other subjects, kinds without a rule or with an unknown one,
      and limits on what is no number. */
  lemma NothingRaised(o: Observation, rule: Rule, isNew: bool, now: int)
    requires || !Applies(rule, o) || rule.kind.NoRule? || rule.kind.UnknownType?
             || ((rule.kind.Threshold? || rule.kind.ThresholdOrSpike?) && Numeric(o.value).None?)
    ensures Classify(o, rule, isNew, now) == Verdict(Info, false, o.threshold)
  {
  }

  /** Only threshold rules give notices, and only limits are recorded. */
  lemma OnlyThresholdsNotice(o: Observation, rule: Rule, isNew: bool, now: int)
    requires !rule.kind.Threshold?
    ensures !Classify(o, rule, isNew, now).notice
    ensures !rule.kind.ThresholdOrSpike? ==> Classify(o, rule, isNew, now).threshold == o.threshold
  {
  }

  // ----- the run --------------------------------------------------------

  /** Each observation is judged by the rule of its own kind, as new or not by its own
      id, and is otherwise left as it is. */
  lemma AppliedEach(observations: seq<Observation>, rules: Rules, unknown: set<string>, now: int, i: nat)
    requires i < |observations|
    ensures var o, r := observations[i], ClassifiedAll(observations, rules, unknown, now)[i];
      var v := Classify(o, if o.kind in rules then rules[o.kind] else NO_RULE, o.id in unknown, now);
      && r == o.(severity := v.severity, notice := v.notice, threshold := v.threshold)
      && |ClassifiedAll(observations, rules, unknown, now)| == |observations|
  {
  }

  /** Disk usage beyond both its limits is crit, beyond the lower one warn. */
  lemma FullDisk(o: Observation, now: int)
    requires Numeric(o.value).Some?
    ensures var rule := NO_RULE.(kind := Threshold, warn := Some(85.0), crit := Some(90.0));
      var v := Classify(o, rule, false, now);
      && (Numeric(o.value).value == 95.0 ==> v.severity == Crit && v.threshold == Some(90.0))
      && (Numeric(o.value).value == 90.0 ==> v.severity == Warn && v.threshold == Some(85.0))
      && (Numeric(o.value).value == 85.0 ==> v.severity == Info)
  {
  }
}
