/** SecurityConfiguration: the ordered requestMatchers table of the filter chain.
    A request is decided by the first rule one of whose patterns matches its
    path; a caller is anonymous (None) or carries the single authority of its
    account, "ROLE_" followed by its role's name. */
module SecurityConfiguration {
  import opened Entities

  // An ant-style pattern: a literal path, or base followed by the double-star
  // wildcard, which matches base itself and everything below base + "/";
  // anyRequest() matches every path.
  datatype Pattern = Exact(path: string) | Subtree(base: string) | AnyPath

  predicate Matches(p: Pattern, path: string): (m: bool)
    // a matched path begins with the pattern's text, and a subtree match ends
    // there or continues with a new segment, so /distributor/** does not match
    // /distributorX
    ensures m ==> Text(p) <= path
    ensures m && p.Subtree? && path != p.base ==> |path| > |p.base| && path[|p.base|] == '/'
    ensures p.Exact? ==> (m <==> path == p.path)
    ensures p.Subtree? ==> (m <==> path == p.base || p.base + "/" <= path)
    ensures p.AnyPath? ==> m
  {
    match p
    case Exact(q) => path == q
    case Subtree(base) =>
      assert base + "/" <= path ==> base <= path && path[|base|] == (base + "/")[|base|];
      Under(base, path)
    case AnyPath => true
  }

  datatype Requirement = HasAnyAuthority(authorities: set<string>) | PermitAll | Authenticated

  datatype Rule = Rule(patterns: set<Pattern>, requirement: Requirement)

  predicate RuleMatches(rule: Rule, path: string) {
    exists p :: p in rule.patterns && Matches(p, path)
  }

  predicate Satisfies(req: Requirement, authority: Option<string>) {
    match req
    case HasAnyAuthority(allowed) => authority.Some? && authority.value in allowed
    case PermitAll => true
    case Authenticated => authority.Some?
  }

  const PasswordRule := Rule({Exact("/auth/change"), Exact("/auth/forgot"), Exact("/auth/setPassword")},
                             HasAnyAuthority({"ROLE_DRIVER", "ROLE_DISTRIBUTOR"}))

  const PublicRule := Rule({
    Subtree("/auth"), Exact("/v2/api-docs"), Exact("/v3/api-docs"), Subtree("/v3/api-docs"),
    Exact("/swagger-resources"), Subtree("/swagger-resources"), Exact("/configuration/ui"),
    Exact("/configuration/security"), Subtree("/swagger-ui"), Subtree("/webjars"), Exact("/swagger-ui.html")
  }, PermitAll)

  const DistributorRule := Rule({Subtree("/distributor")}, HasAnyAuthority({"ROLE_DISTRIBUTOR"}))

  const EmployeeRule := Rule({Subtree("/employee")}, HasAnyAuthority({"ROLE_EMPLOYEE"}))

  const AnyRequestRule := Rule({AnyPath}, Authenticated)

  /** The rules in declaration order. */
  const Table: seq<Rule> := [PasswordRule, PublicRule, DistributorRule, EmployeeRule, AnyRequestRule]

  /** The subtree at base: base itself and every path below base + "/". */
  predicate Under(base: string, path: string) {
    path == base || base + "/" <= path
  }

  /** The three password routes, listed ahead of the /auth subtree. */
  predicate PasswordRoute(path: string) {
    path == "/auth/change" || path == "/auth/forgot" || path == "/auth/setPassword"
  }

  /** The api-docs, swagger and webjars resources. */
  predicate DocumentationRoute(path: string) {
    || path == "/v2/api-docs" || Under("/v3/api-docs", path) || Under("/swagger-resources", path)
    || path == "/configuration/ui" || path == "/configuration/security"
    || Under("/swagger-ui", path) || Under("/webjars", path) || path == "/swagger-ui.html"
  }

  /** The index of the first rule that matches, if any. */
  function FirstMatch(rules: seq<Rule>, path: string): (r: Option<nat>)
    ensures r.Some? ==> r.value < |rules| && RuleMatches(rules[r.value], path)
    ensures r.Some? ==> forall j :: 0 <= j < r.value ==> !RuleMatches(rules[j], path)
    ensures r.None? ==> forall j :: 0 <= j < |rules| ==> !RuleMatches(rules[j], path)
    decreases |rules|
  {
    if rules == [] then None
    else if RuleMatches(rules[0], path) then Some(0)
    else
      match FirstMatch(rules[1..], path)
      case None => None
      case Some(i) => Some(i + 1)
  }

  /** Whether the request is let through; a path no rule matches is refused. */
  function Decide(path: string, authority: Option<string>): (allowed: bool)
    // an anonymous caller gets through only on a public path, and a logged-in
    // caller is turned away only by one of the three authority rules
    ensures allowed && authority.None? ==> RuleMatches(PublicRule, path) && !RuleMatches(PasswordRule, path)
    ensures !allowed && authority.Some? ==>
      RuleMatches(PasswordRule, path) || RuleMatches(DistributorRule, path) || RuleMatches(EmployeeRule, path)
  {
    assert Table[0] == PasswordRule && Table[1] == PublicRule && Table[2] == DistributorRule;
    assert Table[3] == EmployeeRule && Table[4] == AnyRequestRule;
    assert RuleMatches(AnyRequestRule, path) by { assert Matches(AnyPath, path); }
    match FirstMatch(Table, path)
    case None => false
    case Some(i) => Satisfies(Table[i].requirement, authority)
  }

  /** Decide by the first matching rule, spelt out rule by rule. */
  lemma DecideByRule(path: string, authority: Option<string>)
    ensures RuleMatches(PasswordRule, path) ==> (Decide(path, authority) <==> Satisfies(PasswordRule.requirement, authority))
    ensures !RuleMatches(PasswordRule, path) && RuleMatches(PublicRule, path) ==> Decide(path, authority)
    ensures !RuleMatches(PasswordRule, path) && !RuleMatches(PublicRule, path) && RuleMatches(DistributorRule, path)
            ==> (Decide(path, authority) <==> Satisfies(DistributorRule.requirement, authority))
    ensures !RuleMatches(PasswordRule, path) && !RuleMatches(PublicRule, path) && !RuleMatches(DistributorRule, path)
            && RuleMatches(EmployeeRule, path)
            ==> (Decide(path, authority) <==> Satisfies(EmployeeRule.requirement, authority))
    ensures !RuleMatches(PasswordRule, path) && !RuleMatches(PublicRule, path) && !RuleMatches(DistributorRule, path)
            && !RuleMatches(EmployeeRule, path)
            ==> (Decide(path, authority) <==> authority.Some?)
  {
    assert Table[0] == PasswordRule && Table[1] == PublicRule && Table[2] == DistributorRule;
    assert Table[3] == EmployeeRule && Table[4] == AnyRequestRule;
    assert RuleMatches(AnyRequestRule, path) by { assert Matches(AnyPath, path); }
    var r := FirstMatch(Table, path);
    assert r.Some? && r.value < 5;
  }

  /** The literal text of a pattern; anyRequest() has none. */
  function Text(p: Pattern): string {
    match p
    case Exact(q) => q
    case Subtree(base) => base
    case AnyPath => ""
  }

  /** A path that a literal or subtree pattern matches agrees with the
      pattern's text character by character. */
  lemma MatchAgrees(p: Pattern, path: string, k: nat)
    requires k < |Text(p)|
    ensures Matches(p, path) ==> k < |path| && path[k] == Text(p)[k]
  {
    if p.Subtree? && p.base + "/" <= path {
      assert path[k] == (p.base + "/")[k];
    }
  }

  /** The password routes all start with "/a". */
  lemma PasswordRuleLeadingChar(path: string)
    ensures RuleMatches(PasswordRule, path) ==> |path| > 1 && path[1] == 'a'
  {
    forall p | p in PasswordRule.patterns ensures Matches(p, path) ==> |path| > 1 && path[1] == 'a' {
      MatchAgrees(p, path, 1);
    }
  }

  /** The public routes start with "/a", "/v", "/s", "/c" or "/w". */
  lemma PublicRuleLeadingChar(path: string)
    ensures RuleMatches(PublicRule, path) ==>
      |path| > 1 && (path[1] == 'a' || path[1] == 'v' || path[1] == 's' || path[1] == 'c' || path[1] == 'w')
  {
    forall p | p in PublicRule.patterns
      ensures Matches(p, path) ==>
        |path| > 1 && (path[1] == 'a' || path[1] == 'v' || path[1] == 's' || path[1] == 'c' || path[1] == 'w')
    {
      MatchAgrees(p, path, 1);
    }
  }

  /** The distributor's routes start with "/di", the employee's with "/e". */
  lemma RoleRulesLeadingChars(path: string)
    ensures RuleMatches(DistributorRule, path) ==> |path| > 2 && path[1] == 'd' && path[2] == 'i'
    ensures RuleMatches(EmployeeRule, path) ==> |path| > 1 && path[1] == 'e'
  {
    MatchAgrees(Subtree("/distributor"), path, 1);
    MatchAgrees(Subtree("/distributor"), path, 2);
    MatchAgrees(Subtree("/employee"), path, 1);
  }

  // /auth/change, /auth/forgot and /auth/setPassword come before the /auth
  // subtree: they need a driver's or a distributor's authority.
  lemma PasswordRoutesNeedAccount(path: string, authority: Option<string>)
    requires PasswordRoute(path)
    ensures Decide(path, authority) <==> authority == Some("ROLE_DRIVER") || authority == Some("ROLE_DISTRIBUTOR")
  {
    assert RuleMatches(PasswordRule, path) by { assert Matches(Exact(path), path); }
    DecideByRule(path, authority);
  }

  /** Every other path under /auth is open to anyone, anonymous callers included. */
  lemma AuthRoutesArePublic(path: string, authority: Option<string>)
    requires Under("/auth", path) && !PasswordRoute(path)
    ensures Decide(path, authority)
  {
    assert !RuleMatches(PasswordRule, path);
    assert RuleMatches(PublicRule, path) by { assert Matches(Subtree("/auth"), path); }
    DecideByRule(path, authority);
  }

  /** The documentation resources start with "/v", "/s", "/c" or "/w". */
  lemma DocumentationLeadingChar(path: string)
    ensures DocumentationRoute(path) ==>
      |path| > 1 && (path[1] == 'v' || path[1] == 's' || path[1] == 'c' || path[1] == 'w')
  {
    MatchAgrees(Subtree("/v3/api-docs"), path, 1);
    MatchAgrees(Subtree("/swagger-resources"), path, 1);
    MatchAgrees(Subtree("/swagger-ui"), path, 1);
    MatchAgrees(Subtree("/webjars"), path, 1);
  }

  /** The api-docs, swagger and webjars resources are open to anyone. */
  lemma DocumentationRoutesArePublic(path: string, authority: Option<string>)
    requires DocumentationRoute(path)
    ensures Decide(path, authority)
  {
    DocumentationLeadingChar(path);
    PasswordRuleLeadingChar(path);
    assert RuleMatches(PublicRule, path) by {
      if Under("/v3/api-docs", path) { assert Matches(Subtree("/v3/api-docs"), path); }
      else if Under("/swagger-ui", path) { assert Matches(Subtree("/swagger-ui"), path); }
      else if Under("/swagger-resources", path) { assert Matches(Subtree("/swagger-resources"), path); }
      else if Under("/webjars", path) { assert Matches(Subtree("/webjars"), path); }
      else { assert Exact(path) in PublicRule.patterns; }
    }
    DecideByRule(path, authority);
  }

  // The /distributor subtree needs the distributor authority; nothing else will do.
  lemma DistributorRoutesNeedDistributor(path: string, authority: Option<string>)
    requires Under("/distributor", path)
    ensures Decide(path, authority) <==> authority == Some("ROLE_DISTRIBUTOR")
  {
    assert |path| > 1 && path[1] == 'd';
    PasswordRuleLeadingChar(path);
    PublicRuleLeadingChar(path);
    assert RuleMatches(DistributorRule, path) by { assert Matches(Subtree("/distributor"), path); }
    DecideByRule(path, authority);
  }

  // The /employee subtree needs the employee authority.
  lemma EmployeeRoutesNeedEmployee(path: string, authority: Option<string>)
    requires Under("/employee", path)
    ensures Decide(path, authority) <==> authority == Some("ROLE_EMPLOYEE")
  {
    assert |path| > 1 && path[1] == 'e';
    PasswordRuleLeadingChar(path);
    PublicRuleLeadingChar(path);
    RoleRulesLeadingChars(path);
    assert RuleMatches(EmployeeRule, path) by { assert Matches(Subtree("/employee"), path); }
    DecideByRule(path, authority);
  }

  /** The password routes lie inside the /auth subtree. */
  lemma PasswordRuleWithinAuth(path: string)
    ensures RuleMatches(PasswordRule, path) ==> Under("/auth", path)
  {
    forall p | p in PasswordRule.patterns && Matches(p, path) ensures Under("/auth", path) {
      assert "/auth/" <= p.path;
    }
  }

  /** The public rule matches only /auth paths and documentation resources. */
  lemma PublicRuleWithin(path: string)
    ensures RuleMatches(PublicRule, path) ==> Under("/auth", path) || DocumentationRoute(path)
  {
    forall p | p in PublicRule.patterns && Matches(p, path) ensures Under("/auth", path) || DocumentationRoute(path) { }
  }

  /** Every path outside /auth, the documentation resources, /distributor and
      /employee falls through to anyRequest(): it needs only a logged-in caller
      of any role. */
  lemma OtherRoutesNeedLogin(path: string, authority: Option<string>)
    requires !Under("/auth", path) && !DocumentationRoute(path) && !Under("/distributor", path) && !Under("/employee", path)
    ensures Decide(path, authority) <==> authority.Some?
  {
    PasswordRuleWithinAuth(path);
    PublicRuleWithin(path);
    assert !RuleMatches(DistributorRule, path) by {
      forall p | p in DistributorRule.patterns ensures !Matches(p, path) { }
    }
    assert !RuleMatches(EmployeeRule, path) by {
      forall p | p in EmployeeRule.patterns ensures !Matches(p, path) { }
    }
    DecideByRule(path, authority);
  }

  /** The driver's routes are such paths: any logged-in caller passes the filter
      chain, and the driver service's own cast is what refuses a distributor. */
  lemma DriverRoutesNeedLogin(path: string, authority: Option<string>)
    requires Under("/driver", path)
    ensures Decide(path, authority) <==> authority.Some?
  {
    MatchAgrees(Subtree("/driver"), path, 1);
    MatchAgrees(Subtree("/driver"), path, 2);
    MatchAgrees(Subtree("/auth"), path, 1);
    MatchAgrees(Subtree("/distributor"), path, 2);
    MatchAgrees(Subtree("/employee"), path, 1);
    DocumentationLeadingChar(path);
    OtherRoutesNeedLogin(path, authority);
  }

  /** An anonymous caller is let through exactly on the /auth paths other than
      the three password routes and on the documentation resources. */
  lemma AnonymousAccess(path: string)
    ensures Decide(path, None) <==> (Under("/auth", path) && !PasswordRoute(path)) || DocumentationRoute(path)
  {
    DocumentationLeadingChar(path);
    MatchAgrees(Subtree("/auth"), path, 1);
    MatchAgrees(Subtree("/distributor"), path, 1);
    MatchAgrees(Subtree("/employee"), path, 1);
    if PasswordRoute(path) {
      PasswordRoutesNeedAccount(path, None);
    } else if Under("/auth", path) {
      AuthRoutesArePublic(path, None);
    } else if DocumentationRoute(path) {
      DocumentationRoutesArePublic(path, None);
    } else if Under("/distributor", path) {
      DistributorRoutesNeedDistributor(path, None);
    } else if Under("/employee", path) {
      EmployeeRoutesNeedEmployee(path, None);
    } else {
      OtherRoutesNeedLogin(path, None);
    }
  }

  /** "ROLE_DISTRIBUTOR" is the authority of exactly the DISTRIBUTOR role. */
  lemma DistributorAuthority(r: Role)
    ensures Authority(r) == "ROLE_DISTRIBUTOR" <==> r.name == DistributorRoleName
  {
    if Authority(r) == "ROLE_DISTRIBUTOR" {
      assert r.name == Authority(r)[5..];
    }
    if r.name == DistributorRoleName {
      var a := Authority(r);
      assert |a| == 16;
      forall i | 0 <= i < 16 ensures a[i] == "ROLE_DISTRIBUTOR"[i] {
        if i >= 5 { assert a[i] == a[5..][i - 5]; }
      }
    }
  }

  /** With the authority of an account of role `r`, the distributor's routes are
      open exactly when the role is DISTRIBUTOR: a driver is refused. */
  lemma DistributorRoutesByRole(path: string, r: Role)
    requires Under("/distributor", path)
    ensures Decide(path, Some(Authority(r))) <==> r.name == DistributorRoleName
  {
    DistributorRoutesNeedDistributor(path, Some(Authority(r)));
    DistributorAuthority(r);
  }

  /** No account passes both role-specific rules: its single authority names one role. */
  lemma AtMostOneRoleRule(distributorPath: string, employeePath: string, r: Role)
    requires Under("/distributor", distributorPath)
    requires Under("/employee", employeePath)
    ensures !(Decide(distributorPath, Some(Authority(r))) && Decide(employeePath, Some(Authority(r))))
  {
    DistributorRoutesNeedDistributor(distributorPath, Some(Authority(r)));
    EmployeeRoutesNeedEmployee(employeePath, Some(Authority(r)));
  }
}
