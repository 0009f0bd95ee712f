/**
 * Rule matching and first-match profile selection: the scan of `__main__`
 * over profiles, their `urls` groups and each group's rules, in insertion
 * order, stopping at the first rule that matches.
 */
module Matching {
  import opened Wrappers
  import opened Strings
  import opened OrderedDict
  import opened Profiles

  /**
   * The components of `urlparse(url)` the scan reads: `scheme`,
   * `hostname` (no port or user information), `netloc` (the whole
   * authority) and `path`.
   */
  datatype ParsedUrl = ParsedUrl(scheme: string, hostname: string, netloc: string, path: string)

  /** The stand-in `__main__` uses for a key a rule does not set. */
  const Sentinel := "..EMPTY.."

  /** `PARSED_PATH`: the URL's path, with the empty path read as `/`. */
  function EffectivePath(path: string): (r: string)
    ensures r != ""
    ensures path != "" ==> r == path
  {
    if path == "" then "/" else path
  }

  /**
   * The rule test of `__main__`, with absent keys read as the sentinel:
   * the scheme is unset or equal; the host equals `domain`, or ends with
   * `domain_suffix`, or neither key is set; the path starts with `/`
   * followed by `path_start`. So a match needs a path starting with `/`,
   * a set scheme equal to the URL's, and, with only `domain` set, that
   * exact host.
   */
  predicate RuleMatches(rule: Rule, scheme: string, host: string, path: string)
    ensures RuleMatches(rule, scheme, host, path) ==> StartsWith(path, "/")
    ensures RuleMatches(rule, scheme, host, path) && rule.scheme.Some? && rule.scheme != Some(Sentinel)
      ==> rule.scheme == Some(scheme)
    ensures (RuleMatches(rule, scheme, host, path) && rule.domain.Some? && rule.domain != Some(Sentinel)
      && rule.domainSuffix.None?) ==> rule.domain == Some(host) || EndsWith(host, Sentinel)
  {
    StartsWithPrefix(path, "/", rule.pathStart.GetOr(""));
    var ruleScheme := rule.scheme.GetOr(Sentinel);
    var domain := rule.domain.GetOr(Sentinel);
    var suffix := rule.domainSuffix.GetOr(Sentinel);
    && (ruleScheme == Sentinel || ruleScheme == scheme)
    && (host == domain || EndsWith(host, suffix) || (domain == Sentinel && suffix == Sentinel))
    && StartsWith(path, "/" + rule.pathStart.GetOr(""))
  }

  /** The same test stated on absent keys directly, without a sentinel. */
  predicate RuleMatchesUnset(rule: Rule, scheme: string, host: string, path: string) {
    && (rule.scheme.None? || rule.scheme.value == scheme)
    && (|| (rule.domain.None? && rule.domainSuffix.None?)
        || rule.domain == Some(host)
        || (rule.domainSuffix.Some? && EndsWith(host, rule.domainSuffix.value)))
    && StartsWith(path, "/" + rule.pathStart.GetOr(""))
  }

  /**
   * The sentinel stands for an absent key exactly, as long as the host
   * does not end with the sentinel and no rule sets a key to it.
   */
  lemma SentinelMeansUnset(rule: Rule, scheme: string, host: string, path: string)
    requires !EndsWith(host, Sentinel)
    requires rule.scheme != Some(Sentinel) && rule.domain != Some(Sentinel)
    requires rule.domainSuffix != Some(Sentinel)
    ensures RuleMatches(rule, scheme, host, path) <==> RuleMatchesUnset(rule, scheme, host, path)
  {
    assert host != Sentinel;
  }

  /**
   * A rule that sets no key matches every scheme and host, but only a path
   * that starts with `/`.
   */
  lemma EmptyRuleMatches(scheme: string, host: string, path: string)
    ensures RuleMatches(Rule(None, None, None, None), scheme, host, path) <==> StartsWith(path, "/")
  {
    assert "/" + "" == "/";
  }

  /** `endswith("")` holds, so an explicitly empty `domain_suffix` accepts every host. */
  lemma EmptySuffixMatchesAnyHost(scheme: string, host: string, path: string)
    ensures RuleMatches(Rule(None, None, Some(""), None), scheme, host, path) <==> StartsWith(path, "/")
  {
    assert host[|host|..] == "";
    assert "/" + "" == "/";
  }

  /** The suffix test is a plain string test, with no dot boundary. */
  lemma SuffixIsLiteral()
    ensures RuleMatches(Rule(None, None, Some("example.com"), None), "https", "notexample.com", "/")
  {
    assert "notexample.com"[3..] == "example.com";
    assert "/" + "" == "/";
  }

  /** The `urls` groups of a profile, `{}` when absent. */
  function Groups(p: Profile): Dict<seq<Rule>> {
    p.urls.GetOr([])
  }

  /** Some rule of some group of `p` matches. */
  predicate ProfileMatches(p: Profile, scheme: string, host: string, path: string) {
    exists g, r :: 0 <= g < |Groups(p)| && 0 <= r < |Groups(p)[g].1|
      && RuleMatches(Groups(p)[g].1[r], scheme, host, path)
  }

  /** The position of the first profile with a matching rule. */
  function FirstMatch(config: Config, scheme: string, host: string, path: string): (r: Option<nat>)
    ensures r.Some? ==> r.value < |config| && ProfileMatches(config[r.value].1, scheme, host, path)
    ensures r.Some? ==> forall k :: 0 <= k < r.value ==> !ProfileMatches(config[k].1, scheme, host, path)
    ensures r.None? ==> forall k :: 0 <= k < |config| ==> !ProfileMatches(config[k].1, scheme, host, path)
    decreases |config|
  {
    if config == [] then None
    else if ProfileMatches(config[0].1, scheme, host, path) then Some(0)
    else
      match FirstMatch(config[1..], scheme, host, path)
      case Some(i) => Some(i + 1)
      case None => None
  }

  /** The profile `launch` is called with: the first match, else `default`. */
  function Selected(config: Config, scheme: string, host: string, path: string): (r: (string, Profile))
    requires Get(config, "default").Some?
    ensures (exists k :: 0 <= k < |config| && ProfileMatches(config[k].1, scheme, host, path))
      ==> r in config && ProfileMatches(r.1, scheme, host, path)
    ensures (forall k :: 0 <= k < |config| ==> !ProfileMatches(config[k].1, scheme, host, path))
      ==> r == ("default", Get(config, "default").value)
  {
    match FirstMatch(config, scheme, host, path)
    case Some(i) => config[i]
    case None => ("default", Get(config, "default").value)
  }

  /**
   * The scan of `__main__`: three nested loops, each leaving at the top of
   * its next iteration once the `found` flag is set. `launches` records the
   * calls to `launch`; there is exactly one, with the selected profile.
   */
  method Scan(config: Config, scheme: string, host: string, path: string)
    returns (launches: seq<(string, Profile)>)
    requires Get(config, "default").Some?
    ensures launches == [Selected(config, scheme, host, path)]
  {
    launches := [];
    var found := false;
    var i := 0;
    while i < |config|
      invariant 0 <= i <= |config|
      invariant !found ==> launches == []
      invariant !found ==> forall k :: 0 <= k < i ==> !ProfileMatches(config[k].1, scheme, host, path)
      invariant found ==> 0 < i && launches == [config[i - 1]]
      invariant found ==> ProfileMatches(config[i - 1].1, scheme, host, path)
      invariant found ==> forall k :: 0 <= k < i - 1 ==> !ProfileMatches(config[k].1, scheme, host, path)
    {
      if found {
        break;
      }
      var (name, data) := config[i];
      var groups := data.urls.GetOr([]);
      var g := 0;
      while g < |groups|
        invariant 0 <= g <= |groups|
        invariant !found ==> launches == []
        invariant !found ==> forall gk, rk :: 0 <= gk < g && 0 <= rk < |groups[gk].1| ==>
          !RuleMatches(groups[gk].1[rk], scheme, host, path)
        invariant found ==> launches == [config[i]] && ProfileMatches(data, scheme, host, path)
      {
        if found {
          break;
        }
        var rules := groups[g].1;
        var r := 0;
        while r < |rules|
          invariant 0 <= r <= |rules|
          invariant !found ==> launches == []
          invariant !found ==> forall rk :: 0 <= rk < r ==> !RuleMatches(rules[rk], scheme, host, path)
          invariant found ==> launches == [config[i]] && ProfileMatches(data, scheme, host, path)
        {
          if found {
            break;
          }
          if RuleMatches(rules[r], scheme, host, path) {
            assert Groups(data)[g].1[r] == rules[r];
            found := true;
            launches := launches + [(name, data)];
          }
          r := r + 1;
        }
        g := g + 1;
      }
      i := i + 1;
    }
    if !found {
      launches := launches + [("default", Get(config, "default").value)];
    }
  }

  /** The rules of `groups`, each tagged with its profile, in group order then rule order. */
  function GroupCandidates(name: string, p: Profile, groups: Dict<seq<Rule>>): seq<(string, Profile, Rule)>
    decreases |groups|
  {
    if groups == [] then []
    else
      var rules := groups[0].1;
      seq(|rules|, k requires 0 <= k < |rules| => (name, p, rules[k]))
        + GroupCandidates(name, p, groups[1..])
  }

  /** Every (profile name, profile, rule) triple, in the order the scan visits them. */
  function Candidates(config: Config): seq<(string, Profile, Rule)>
    decreases |config|
  {
    if config == [] then []
    else GroupCandidates(config[0].0, config[0].1, Groups(config[0].1)) + Candidates(config[1..])
  }

  /** The position of the first triple whose rule matches. */
  function FirstHit(cands: seq<(string, Profile, Rule)>, scheme: string, host: string, path: string)
    : (r: Option<nat>)
    ensures r.Some? ==> r.value < |cands| && RuleMatches(cands[r.value].2, scheme, host, path)
    ensures r.Some? ==> forall k :: 0 <= k < r.value ==> !RuleMatches(cands[k].2, scheme, host, path)
    ensures r.None? ==> forall k :: 0 <= k < |cands| ==> !RuleMatches(cands[k].2, scheme, host, path)
    decreases |cands|
  {
    if cands == [] then None
    else if RuleMatches(cands[0].2, scheme, host, path) then Some(0)
    else
      match FirstHit(cands[1..], scheme, host, path)
      case Some(i) => Some(i + 1)
      case None => None
  }

  lemma FirstHitAppend(a: seq<(string, Profile, Rule)>, b: seq<(string, Profile, Rule)>,
                       scheme: string, host: string, path: string)
    ensures FirstHit(a + b, scheme, host, path) ==
      if FirstHit(a, scheme, host, path).Some? then FirstHit(a, scheme, host, path)
      else match FirstHit(b, scheme, host, path)
        case Some(i) => Some(|a| + i)
        case None => None
  {
    var ab := a + b;
    assert forall k :: 0 <= k < |a| ==> ab[k] == a[k];
    assert forall k :: 0 <= k < |b| ==> ab[|a| + k] == b[k];
    var r := FirstHit(ab, scheme, host, path);
    if FirstHit(a, scheme, host, path).None? && r.Some? {
      assert r.value >= |a|;
      assert b[r.value - |a|] == ab[r.value];
    }
  }

  lemma {:induction false} GroupCandidatesShape(name: string, p: Profile, groups: Dict<seq<Rule>>,
                                               scheme: string, host: string, path: string)
    ensures forall k :: 0 <= k < |GroupCandidates(name, p, groups)| ==>
      GroupCandidates(name, p, groups)[k].0 == name && GroupCandidates(name, p, groups)[k].1 == p
    ensures FirstHit(GroupCandidates(name, p, groups), scheme, host, path).Some? <==>
      exists g, r :: 0 <= g < |groups| && 0 <= r < |groups[g].1| && RuleMatches(groups[g].1[r], scheme, host, path)
    decreases |groups|
  {
    if groups != [] {
      var rules := groups[0].1;
      var head := seq(|rules|, k requires 0 <= k < |rules| => (name, p, rules[k]));
      var tail := GroupCandidates(name, p, groups[1..]);
      GroupCandidatesShape(name, p, groups[1..], scheme, host, path);
      FirstHitAppend(head, tail, scheme, host, path);
      assert GroupCandidates(name, p, groups) == head + tail;
      if FirstHit(head, scheme, host, path).Some? {
        var r := FirstHit(head, scheme, host, path).value;
        assert RuleMatches(groups[0].1[r], scheme, host, path);
      }
      if FirstHit(tail, scheme, host, path).Some? {
        var g, r :| 0 <= g < |groups[1..]| && 0 <= r < |groups[1..][g].1|
          && RuleMatches(groups[1..][g].1[r], scheme, host, path);
        assert groups[g + 1].1[r] == groups[1..][g].1[r];
      }
      if exists g, r :: 0 <= g < |groups| && 0 <= r < |groups[g].1| && RuleMatches(groups[g].1[r], scheme, host, path) {
        var g, r :| 0 <= g < |groups| && 0 <= r < |groups[g].1| && RuleMatches(groups[g].1[r], scheme, host, path);
        if g == 0 {
          assert RuleMatches(head[r].2, scheme, host, path);
        } else {
          assert groups[1..][g - 1].1[r] == groups[g].1[r];
        }
      }
    }
  }

  lemma {:induction false} FirstHitInFirstMatch(config: Config, scheme: string, host: string, path: string)
    ensures match FirstHit(Candidates(config), scheme, host, path)
      case None => FirstMatch(config, scheme, host, path).None?
      case Some(k) =>
        && FirstMatch(config, scheme, host, path).Some?
        && config[FirstMatch(config, scheme, host, path).value]
           == (Candidates(config)[k].0, Candidates(config)[k].1)
    decreases |config|
  {
    if config != [] {
      var (name, p) := config[0];
      var head := GroupCandidates(name, p, Groups(p));
      var tail := Candidates(config[1..]);
      GroupCandidatesShape(name, p, Groups(p), scheme, host, path);
      FirstHitAppend(head, tail, scheme, host, path);
      FirstHitInFirstMatch(config[1..], scheme, host, path);
      if FirstHit(head, scheme, host, path).None? {
        match FirstHit(tail, scheme, host, path)
        case None =>
        case Some(k) =>
          assert (head + tail)[|head| + k] == tail[k];
      }
    }
  }

  /**
   * The scan selects the profile of the first matching (profile, group,
   * rule) triple in insertion order, or `default` when no rule matches.
   */
  lemma SelectionFollowsRuleOrder(config: Config, scheme: string, host: string, path: string)
    requires Get(config, "default").Some?
    ensures Selected(config, scheme, host, path) ==
      match FirstHit(Candidates(config), scheme, host, path)
      case Some(k) => (Candidates(config)[k].0, Candidates(config)[k].1)
      case None => ("default", Get(config, "default").value)
  {
    FirstHitInFirstMatch(config, scheme, host, path);
  }
}
