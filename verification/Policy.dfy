/** Restriction rules: what a policy denies, and how the verdict moves with the rules. */
module Policy {
  import opened Options

  /** How a pattern meets a command path; the code uses `PathGlob.MatchCommandPath`. */
  type PathMatch = (string, string) -> bool

  datatype Rule = Rule(name: string, allow: seq<string>, deny: seq<string>, maxRisk: string, identities: seq<string>,
                       allowUnannotated: bool)

  datatype Command = Command(path: string, risk: Option<string>, identities: seq<string>)

  datatype Reason = NotAllowed | PathDenied(pattern: string) | PathNotAllowed | RiskNotAnnotated | RiskTooHigh
                  | IdentityNotSupported

  datatype Denial = Denial(rule: string, reason: Reason)

  /** `Risk.Rank`. */
  function Rank(risk: string): Option<nat> {
    if risk == "read" then Some(0)
    else if risk == "write" then Some(1)
    else if risk == "high-risk-write" then Some(2)
    else None
  }

  // --------------------------------------------------------------- what is asked

  predicate Hit(glob: PathMatch, patterns: seq<string>, command: Command) {
    exists i :: 0 <= i < |patterns| && glob(patterns[i], command.path)
  }

  predicate PathAllowed(glob: PathMatch, rule: Rule, command: Command) {
    rule.allow == [] || Hit(glob, rule.allow, command)
  }

  predicate RiskAllowed(rule: Rule, command: Command) {
    rule.maxRisk == "" ||
    match command.risk
    case None => rule.allowUnannotated
    case Some(risk) =>
      Rank(risk).Some? && Rank(rule.maxRisk).Some? && Rank(risk).value <= Rank(rule.maxRisk).value
  }

  predicate IdentityAllowed(rule: Rule, command: Command) {
    rule.identities == [] || exists i :: 0 <= i < |command.identities| && command.identities[i] in rule.identities
  }

  /** Everything one rule asks of a command. */
  predicate Permits(glob: PathMatch, rule: Rule, command: Command) {
    && !Hit(glob, rule.deny, command)
    && PathAllowed(glob, rule, command) && RiskAllowed(rule, command) && IdentityAllowed(rule, command)
  }

  /** A command is permitted when every rule permits it. */
  predicate Permitted(glob: PathMatch, rules: seq<Rule>, command: Command) {
    forall i :: 0 <= i < |rules| ==> Permits(glob, rules[i], command)
  }

  // ------------------------------------------------------------- the evaluation

  method Matched(glob: PathMatch, patterns: seq<string>, command: Command) returns (pattern: Option<string>)
    ensures pattern.Some? <==> Hit(glob, patterns, command)
    ensures pattern.Some? ==> FirstMatch(glob, patterns, command, pattern.value)
  {
    for i := 0 to |patterns|
      invariant forall j :: 0 <= j < i ==> !glob(patterns[j], command.path)
    {
      if glob(patterns[i], command.path) { return Some(patterns[i]); }
    }
    return None;
  }

  method IdentityMatches(rule: Rule, command: Command) returns (allowed: bool)
    ensures allowed <==> exists i :: 0 <= i < |command.identities| && command.identities[i] in rule.identities
  {
    allowed := false;
    for i := 0 to |command.identities|
      invariant allowed <==> exists k :: 0 <= k < i && command.identities[k] in rule.identities
    {
      var actual := command.identities[i];
      ghost var before := allowed;
      for j := 0 to |rule.identities|
        invariant allowed <==> before || actual in rule.identities[..j]
      {
        if actual == rule.identities[j] { allowed := true; }
      }
      assert rule.identities[..|rule.identities|] == rule.identities;
    }
  }

  /** Why a rule does not permit a command: the first of the four tests that fails. */
  ghost predicate Explains(glob: PathMatch, rule: Rule, command: Command, reason: Reason) {
    match reason
    case PathDenied(pattern) => FirstMatch(glob, rule.deny, command, pattern)
    case PathNotAllowed => !Hit(glob, rule.deny, command) && !PathAllowed(glob, rule, command)
    case RiskNotAnnotated => PathPasses(glob, rule, command) && command.risk.None? && !RiskAllowed(rule, command)
    case RiskTooHigh => PathPasses(glob, rule, command) && command.risk.Some? && !RiskAllowed(rule, command)
    case IdentityNotSupported =>
      PathPasses(glob, rule, command) && RiskAllowed(rule, command) && !IdentityAllowed(rule, command)
    case NotAllowed => false
  }

  ghost predicate PathPasses(glob: PathMatch, rule: Rule, command: Command) {
    !Hit(glob, rule.deny, command) && PathAllowed(glob, rule, command)
  }

  /** The first pattern of the list that matches. */
  ghost predicate FirstMatch(glob: PathMatch, patterns: seq<string>, command: Command, pattern: string) {
    exists i :: 0 <= i < |patterns| && patterns[i] == pattern && glob(pattern, command.path) &&
      forall j :: 0 <= j < i ==> !glob(patterns[j], command.path)
  }

  /** `evaluateRule`. */
  method EvaluateRule(glob: PathMatch, rule: Rule, command: Command) returns (reason: Option<Reason>)
    ensures reason.None? <==> Permits(glob, rule, command)
    ensures reason.Some? ==> Explains(glob, rule, command, reason.value)
  {
    hide Hit;
    var denied := Matched(glob, rule.deny, command);
    if denied.Some? { return Some(PathDenied(denied.value)); }
    if |rule.allow| > 0 {
      var matched := Matched(glob, rule.allow, command);
      if matched.None? { return Some(PathNotAllowed); }
    }
    if rule.maxRisk != "" {
      if command.risk.None? {
        if !rule.allowUnannotated { return Some(RiskNotAnnotated); }
      } else {
        var actual, max := Rank(command.risk.value), Rank(rule.maxRisk);
        if actual.None? || max.None? || actual.value > max.value { return Some(RiskTooHigh); }
      }
    }
    if |rule.identities| > 0 {
      var allowedIdentity := IdentityMatches(rule, command);
      if !allowedIdentity { return Some(IdentityNotSupported); }
    }
    return None;
  }

  /** Rule `i` is the one reported: the first with a deny pattern that matches, or without
      any the last that fails. */
  ghost predicate Reported(glob: PathMatch, rules: seq<Rule>, command: Command, i: nat, denial: Denial)
    requires i < |rules|
  {
    && denial.rule == rules[i].name && Explains(glob, rules[i], command, denial.reason)
    && (forall j :: 0 <= j < i ==> !Hit(glob, rules[j].deny, command))
    && (!denial.reason.PathDenied? ==>
          && (forall j :: 0 <= j < |rules| ==> !Hit(glob, rules[j].deny, command))
          && forall j :: i < j < |rules| ==> Permits(glob, rules[j], command))
  }

  /** `denial`: global deny patterns first, then rule by rule. */
  method FindDenial(glob: PathMatch, rules: seq<Rule>, command: Command) returns (denial: Option<Denial>)
    ensures denial.None? <==> Permitted(glob, rules, command)
    ensures denial.Some? ==> exists i :: 0 <= i < |rules| && Reported(glob, rules, command, i, denial.value)
  {
    hide Permits, Explains, Hit;
    if |rules| == 0 { return None; }
    for i := 0 to |rules|
      invariant forall j :: 0 <= j < i ==> !Hit(glob, rules[j].deny, command)
    {
      var pattern := Matched(glob, rules[i].deny, command);
      if pattern.Some? {
        DeniedNotPermitted(glob, rules[i], command, pattern.value);
        assert Reported(glob, rules, command, i, Denial(rules[i].name, PathDenied(pattern.value)));
        return Some(Denial(rules[i].name, PathDenied(pattern.value)));
      }
    }
    var allAllowed, found := true, Denial(rules[0].name, NotAllowed);
    for i := 0 to |rules|
      invariant allAllowed <==> forall j :: 0 <= j < i ==> Permits(glob, rules[j], command)
      invariant !allAllowed ==> exists j :: 0 <= j < i && LastFailing(glob, rules, command, i, j, found)
    {
      var reason := EvaluateRule(glob, rules[i], command);
      if reason.Some? {
        allAllowed := false;
        found := Denial(rules[i].name, reason.value);
        NoDenyReason(glob, rules[i], command, reason.value);
        assert LastFailing(glob, rules, command, i + 1, i, found);
      } else if !allAllowed {
        ghost var j :| 0 <= j < i && LastFailing(glob, rules, command, i, j, found);
        assert LastFailing(glob, rules, command, i + 1, j, found);
      }
    }
    if !allAllowed {
      ghost var j :| 0 <= j < |rules| && LastFailing(glob, rules, command, |rules|, j, found);
      assert Reported(glob, rules, command, j, found);
    }
    return if allAllowed then None else Some(found);
  }

  /** Of the first `n` rules, rule `j` is the last that fails, and it is the one kept. */
  ghost predicate LastFailing(glob: PathMatch, rules: seq<Rule>, command: Command, n: nat, j: nat, found: Denial)
    requires j < n <= |rules|
  {
    && found.rule == rules[j].name && Explains(glob, rules[j], command, found.reason) && !found.reason.PathDenied?
    && forall k :: j < k < n ==> Permits(glob, rules[k], command)
  }

  lemma NoDenyReason(glob: PathMatch, rule: Rule, command: Command, reason: Reason)
    requires Explains(glob, rule, command, reason) && !Hit(glob, rule.deny, command)
    ensures !reason.PathDenied?
  {}

  lemma DeniedNotPermitted(glob: PathMatch, rule: Rule, command: Command, pattern: string)
    requires FirstMatch(glob, rule.deny, command, pattern)
    ensures !Permits(glob, rule, command) && Explains(glob, rule, command, PathDenied(pattern))
  {}

  // --------------------------------------------------------- what a policy means

  const RISKS: seq<string> := ["read", "write", "high-risk-write"]

  /** The risk is at most the greatest allowed one; a risk outside the ladder is neither. */
  ghost predicate RiskWithin(risk: string, max: string) {
    exists i, j :: 0 <= i <= j < 3 && RISKS[i] == risk && RISKS[j] == max
  }

  lemma RiskLadder(risk: string, max: string)
    ensures RiskWithin(risk, max) <==> Rank(risk).Some? && Rank(max).Some? && Rank(risk).value <= Rank(max).value
  {
    assert forall i :: 0 <= i < 3 ==> Rank(RISKS[i]) == Some(i);
    if Rank(risk).Some? && Rank(max).Some? {
      assert RISKS[Rank(risk).value] == risk && RISKS[Rank(max).value] == max;
    }
  }

  /** What a rule asks of a command, spelled out: no deny pattern matches, an allow pattern
      does if there is one, the risk is known and within the greatest allowed one if there is
      one, and an identity is wanted if any is. */
  ghost predicate Passes(glob: PathMatch, rule: Rule, command: Command) {
    && (forall p :: p in rule.deny ==> !glob(p, command.path))
    && (rule.allow == [] || exists p :: p in rule.allow && glob(p, command.path))
    && (rule.maxRisk == "" || (command.risk.None? && rule.allowUnannotated)
        || (command.risk.Some? && RiskWithin(command.risk.value, rule.maxRisk)))
    && (rule.identities == [] || exists d :: d in command.identities && d in rule.identities)
  }

  /** A command is permitted exactly when every rule passes it. */
  lemma PermittedMeans(glob: PathMatch, rules: seq<Rule>, command: Command)
    ensures Permitted(glob, rules, command) <==> forall r :: r in rules ==> Passes(glob, r, command)
  {
    forall i | 0 <= i < |rules| ensures Permits(glob, rules[i], command) <==> Passes(glob, rules[i], command) {
      PermitsMeans(glob, rules[i], command);
    }
    hide Permits, Passes;
  }

  lemma PermitsMeans(glob: PathMatch, rule: Rule, command: Command)
    ensures Permits(glob, rule, command) <==> Passes(glob, rule, command)
  {
    HitMeans(glob, rule.deny, command);
    HitMeans(glob, rule.allow, command);
    if command.risk.Some? { RiskLadder(command.risk.value, rule.maxRisk); }
    hide Hit, RiskWithin, Rank;
  }

  lemma HitMeans(glob: PathMatch, patterns: seq<string>, command: Command)
    ensures Hit(glob, patterns, command) <==> exists p :: p in patterns && glob(p, command.path)
  {
    if i :| 0 <= i < |patterns| && glob(patterns[i], command.path) { assert patterns[i] in patterns; }
  }

  // -------------------------------------------------------- how verdicts compare

  /** The order of the rules, and repeating one, never changes the verdict. */
  lemma OrderIrrelevant(glob: PathMatch, a: seq<Rule>, b: seq<Rule>, command: Command)
    requires forall r :: r in a <==> r in b
    ensures Permitted(glob, a, command) <==> Permitted(glob, b, command)
  {
    hide Permits;
    if Permitted(glob, a, command) {
      forall i | 0 <= i < |b| ensures Permits(glob, b[i], command) {
        assert b[i] in a;
      }
    }
    if Permitted(glob, b, command) {
      forall i | 0 <= i < |a| ensures Permits(glob, a[i], command) {
        assert a[i] in b;
      }
    }
  }

  /** A rule that is at least as tight: more denied, fewer allowed, less risk, fewer
      identities, no unannotated command it did not take before. */
  ghost predicate Tighter(glob: PathMatch, tight: Rule, loose: Rule) {
    && (forall p :: p in loose.deny ==> p in tight.deny)
    && (loose.allow == [] || (tight.allow != [] && forall p :: p in tight.allow ==> p in loose.allow))
    && (loose.maxRisk == "" ||
        (tight.maxRisk != "" && (tight.allowUnannotated ==> loose.allowUnannotated)
         && (Rank(tight.maxRisk).Some? ==>
               Rank(loose.maxRisk).Some? && Rank(tight.maxRisk).value <= Rank(loose.maxRisk).value)))
    && (loose.identities == [] ||
        (tight.identities != [] && forall d :: d in tight.identities ==> d in loose.identities))
  }

  lemma HitMono(glob: PathMatch, a: seq<string>, b: seq<string>, command: Command)
    requires forall p :: p in a ==> p in b
    ensures Hit(glob, a, command) ==> Hit(glob, b, command)
  {
    if i :| 0 <= i < |a| && glob(a[i], command.path) {
      assert a[i] in b;
      var j :| 0 <= j < |b| && b[j] == a[i];
    }
  }

  lemma TighterPermitsLess(glob: PathMatch, tight: Rule, loose: Rule, command: Command)
    requires Tighter(glob, tight, loose) && Permits(glob, tight, command)
    ensures Permits(glob, loose, command)
  {
    HitMono(glob, loose.deny, tight.deny, command);
    if loose.allow != [] { HitMono(glob, tight.allow, loose.allow, command); }
    hide Hit;
  }

  /** Replacing rules by tighter ones and adding rules never permits more. */
  lemma TighteningPermitsLess(glob: PathMatch, tight: seq<Rule>, loose: seq<Rule>, command: Command)
    requires forall l :: l in loose ==> exists t :: t in tight && Tighter(glob, t, l)
    requires Permitted(glob, tight, command)
    ensures Permitted(glob, loose, command)
  {
    hide Permits, Tighter;
    forall i | 0 <= i < |loose| ensures Permits(glob, loose[i], command) {
      assert loose[i] in loose;
      var t :| t in tight && Tighter(glob, t, loose[i]);
      TighterPermitsLess(glob, t, loose[i], command);
    }
  }

  /** Adding a rule, or a deny pattern to a rule of the policy, never permits more. */
  lemma AddingPermitsLess(glob: PathMatch, rules: seq<Rule>, added: Rule, k: nat, pattern: string, command: Command)
    ensures Permitted(glob, rules + [added], command) ==> Permitted(glob, rules, command)
    ensures k < |rules| &&
              Permitted(glob, rules[k := rules[k].(deny := rules[k].deny + [pattern])], command) ==>
            Permitted(glob, rules, command)
  {
    if Permitted(glob, rules + [added], command) {
      assert forall l :: l in rules ==> l in rules + [added] && Tighter(glob, l, l);
      TighteningPermitsLess(glob, rules + [added], rules, command);
    }
    if k < |rules| {
      var more := rules[k := rules[k].(deny := rules[k].deny + [pattern])];
      if Permitted(glob, more, command) {
        forall l | l in rules ensures exists t :: t in more && Tighter(glob, t, l) {
          var i :| 0 <= i < |rules| && rules[i] == l;
          assert more[i] in more && Tighter(glob, more[i], l);
        }
        TighteningPermitsLess(glob, more, rules, command);
      }
    }
  }

  /** An allow pattern opens a rule only if the rule had one already: the first one a rule
      gets closes it for every path that does not match. */
  lemma FirstAllowCloses(glob: PathMatch, rule: Rule, pattern: string, command: Command)
    requires Permits(glob, rule, command)
    ensures Permits(glob, rule.(allow := rule.allow + [pattern]), command) <==>
            rule.allow != [] || glob(pattern, command.path)
  {
    var more := rule.(allow := rule.allow + [pattern]);
    if rule.allow == [] {
      assert more.allow[0] == pattern;
    } else {
      HitMono(glob, rule.allow, more.allow, command);
      hide Hit;
    }
  }
}
