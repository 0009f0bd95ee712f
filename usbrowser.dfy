/**
 * The launcher in `usbrowser.py`: `chromium` by default, rules matched on
 * the URL's host name, the executable checked with `shutil.which` before a
 * detached launch with the profile's extra arguments.
 */
module UsBrowser {
  import opened Wrappers
  import opened OrderedDict
  import opened Profiles
  import opened ConfigMerge
  import opened UrlCheck
  import opened Matching
  import opened UrlRewrite
  import opened Command

  /** `config` before any file is read: only `default`, running `chromium`. */
  function DefaultConfig(): (c: Config)
    ensures Keys(c) == ["default"]
    ensures Get(c, "default") == Some(ExecutableOnly("chromium"))
  {
    [("default", ExecutableOnly("chromium"))]
  }

  /** `http_url`: the URL unchanged, or the message of the `ArgumentTypeError` it raises. */
  function HttpUrl(url: string): (r: Result<string, string>)
    ensures r.Success? <==> Accepted(url)
    ensures r.Success? ==> r.value == url
    ensures r.Failure? ==> r.error == "Not an HTTP/HTTPS URL: " + url
  {
    if Accepted(url) then Success(url) else Failure("Not an HTTP/HTTPS URL: " + url)
  }

  const NotificationSummary := "URL Specific Browser-launcher"

  /** The notification text for an executable `shutil.which` cannot find. */
  function NotFoundBody(executable: string, url: string): string {
    "Cannot find executable `" + executable + "` to launch " + url
  }

  /**
   * What `launch` does with a profile, `found` standing for
   * `shutil.which(...)` being truthy: a missing `executable` raises; an
   * executable that is not found gives an urgency-2 notification about the
   * original URL; otherwise the URL is rewritten and the command started
   * detached, unless arguments are listed with no `arguments_delimiter`.
   */
  function LaunchOutcome(profile: Profile, url: string, found: string -> bool): (r: Outcome)
    ensures r.Detached? <==>
      && profile.executable.Some? && found(profile.executable.value)
      && (HasArguments(profile.argumentsList) ==> profile.argumentsDelimiter.Some?)
    ensures r.Notified? <==> profile.executable.Some? && !found(profile.executable.value)
    ensures r.Notified? ==>
      && r.urgency == 2 && r.summary == NotificationSummary
      && r.body == NotFoundBody(profile.executable.value, url)
    ensures r.Detached? ==>
      && |r.argv| == 2 + |profile.argumentsList.GetOr([])|
      && r.argv[0] == profile.executable.value
      && r.argv[|r.argv| - 1] == RewrittenUrl(profile.changeUrl, url)
    ensures r.Detached? ==> r.argv == CommandLine(profile.executable.value,
      profile.argumentsList.GetOr([]), profile.argumentsDelimiter.GetOr(""),
      RewrittenUrl(profile.changeUrl, url))
    ensures r.MissingKey? ==> r.key == "executable" || r.key == "arguments_delimiter"
    ensures !r.Waited? && !r.UsageError?
  {
    match profile.executable
    case None => MissingKey("executable")
    case Some(executable) =>
      if !found(executable) then
        Notified(2, NotificationSummary, NotFoundBody(executable, url))
      else if HasArguments(profile.argumentsList) && profile.argumentsDelimiter.None? then
        MissingKey("arguments_delimiter")
      else
        Detached(CommandLine(executable, profile.argumentsList.GetOr([]),
          profile.argumentsDelimiter.GetOr(""), RewrittenUrl(profile.changeUrl, url)))
  }

  /** `launch`, step by step. */
  method Launch(profile: Profile, url: string, found: string -> bool) returns (outcome: Outcome)
    ensures outcome == LaunchOutcome(profile, url, found)
  {
    if profile.executable.None? {
      return MissingKey("executable");
    }
    var executable := profile.executable.value;
    if found(executable) {
      var rewritten := RewriteUrl(profile.changeUrl, url);
      if HasArguments(profile.argumentsList) && profile.argumentsDelimiter.None? {
        return MissingKey("arguments_delimiter");
      }
      var cmd := BuildCommand(executable, profile.argumentsList, profile.argumentsDelimiter, rewritten);
      outcome := Detached(cmd);
    } else {
      outcome := Notified(2, NotificationSummary, NotFoundBody(executable, url));
    }
  }

  /**
   * One invocation: check the URL, merge the configuration files in order,
   * select a profile by the URL's scheme, host name and path, launch it.
   */
  function Routed(files: seq<ConfigFile>, url: string, parsed: ParsedUrl, found: string -> bool): Outcome {
    match HttpUrl(url)
    case Failure(message) => UsageError(message)
    case Success(_) =>
      var config := MergeFiles(DefaultConfig(), files);
      DefaultKept(DefaultConfig(), files);
      var selected := Selected(config, parsed.scheme, parsed.hostname, EffectivePath(parsed.path));
      LaunchOutcome(selected.1, url, found)
  }

  /** The `__main__` block: argument check, merge loop, scan, and the one `launch` call. */
  method Route(files: seq<ConfigFile>, url: string, parsed: ParsedUrl, found: string -> bool)
    returns (outcome: Outcome)
    ensures outcome == Routed(files, url, parsed, found)
  {
    var checked := HttpUrl(url);
    if checked.Failure? {
      return UsageError(checked.error);
    }
    var config := MergeConfigFiles(DefaultConfig(), files);
    DefaultKept(DefaultConfig(), files);
    var launches := Scan(config, parsed.scheme, parsed.hostname, EffectivePath(parsed.path));
    outcome := Launch(launches[0].1, url, found);
  }

  /**
   * With no matching rule and no file touching `default`, the URL goes
   * unchanged to `chromium` (or, if `chromium` is not found, to a
   * notification).
   */
  lemma FallbackToChromium(files: seq<ConfigFile>, url: string, parsed: ParsedUrl, found: string -> bool)
    requires Accepted(url)
    requires !AnyMentions(files, "default")
    requires FirstMatch(MergeFiles(DefaultConfig(), files), parsed.scheme, parsed.hostname,
      EffectivePath(parsed.path)).None?
    ensures Routed(files, url, parsed, found) ==
      if found("chromium") then Detached(["chromium", url])
      else Notified(2, NotificationSummary, NotFoundBody("chromium", url))
  {
    UnmentionedProfileUnchanged(DefaultConfig(), files, "default");
    var argv := CommandLine("chromium", [], "", url);
    assert argv == ["chromium", url];
  }

  /** A `work` profile routing `*corp.internal/jira...` to `firefox-beta --profile=work`. */
  function WorkProfile(): Profile {
    Profile(
      Some("firefox-beta"),
      Some([("--profile", "work")]),
      Some("="),
      None,
      Some([("jira", [Rule(None, None, Some("corp.internal"), Some("jira"))])]))
  }

  const WorkUrl := "https://issues.corp.internal/jira/browse/X-1"

  lemma WorkMerged()
    ensures MergeFiles(DefaultConfig(), [Missing, Parsed([("work", WorkProfile())])])
      == DefaultConfig() + [("work", WorkProfile())]
  {
    var files := [Missing, Parsed([("work", WorkProfile())])];
    assert files[..1] == [Missing] && files[..1][..0] == [];
    assert MergeFiles(DefaultConfig(), files[..1]) == DefaultConfig();
  }

  lemma WorkSelected()
    ensures Selected(DefaultConfig() + [("work", WorkProfile())], "https", "issues.corp.internal",
      "/jira/browse/X-1") == ("work", WorkProfile())
  {
    var config := DefaultConfig() + [("work", WorkProfile())];
    var host, path := "issues.corp.internal", "/jira/browse/X-1";
    assert !ProfileMatches(config[0].1, "https", host, path);
    assert host[|host| - |"corp.internal"|..] == "corp.internal";
    assert path[..5] == "/" + "jira";
    assert RuleMatches(Groups(WorkProfile())[0].1[0], "https", host, path);
    assert FirstMatch(config, "https", host, path) == Some(1);
  }

  lemma WorkLaunched(found: string -> bool)
    requires found("firefox-beta")
    ensures LaunchOutcome(WorkProfile(), WorkUrl, found)
      == Detached(["firefox-beta", "--profile=work", WorkUrl])
  {
    var argv := CommandLine("firefox-beta", [("--profile", "work")], "=", WorkUrl);
    assert "--profile" + "=" + "work" == "--profile=work";
    assert |argv| == 3 && argv[1] == "--profile=work";
  }

  /**
   * A user file defining `work` sends a Jira URL on a `corp.internal` host
   * to `firefox-beta --profile=work <url>`.
   */
  lemma WorkScenario(found: string -> bool)
    requires found("firefox-beta")
    ensures Routed([Missing, Parsed([("work", WorkProfile())])], WorkUrl,
      ParsedUrl("https", "issues.corp.internal", "issues.corp.internal", "/jira/browse/X-1"),
      found)
      == Detached(["firefox-beta", "--profile=work", WorkUrl])
  {
    assert WorkUrl == "https://" + "issues.corp.internal/jira/browse/X-1";
    assert WorkUrl[..8] == "https://";
    WorkMerged();
    WorkSelected();
    WorkLaunched(found);
  }
}
