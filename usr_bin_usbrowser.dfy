/**
 * The launcher in `usr/bin/usbrowser.py`: `firefox` by default, rules
 * matched on the URL's whole authority (`netloc`), and the command
 * `[executable, url]` run and waited for, with no `shutil.which` check and
 * no extra arguments.
 */
module UsrBinUsBrowser {
  import opened Wrappers
  import opened OrderedDict
  import opened Profiles
  import opened ConfigMerge
  import opened UrlCheck
  import opened Matching
  import opened UrlRewrite
  import opened Command

  /** `config` before any file is read: only `default`, running `firefox`. */
  function DefaultConfig(): (c: Config)
    ensures Keys(c) == ["default"]
    ensures Get(c, "default") == Some(ExecutableOnly("firefox"))
  {
    [("default", ExecutableOnly("firefox"))]
  }

  /** `http_url`: the URL unchanged, or the message (URL in quotes) of the `ArgumentTypeError` it raises. */
  function HttpUrl(url: string): (r: Result<string, string>)
    ensures r.Success? <==> Accepted(url)
    ensures r.Success? ==> r.value == url
    ensures r.Failure? ==> r.error == "Not an HTTP/HTTPS URL: '" + url + "'"
  {
    if Accepted(url) then Success(url) else Failure("Not an HTTP/HTTPS URL: '" + url + "'")
  }

  /**
   * What `launch` does with a profile: a missing `executable` raises;
   * otherwise the rewritten URL is passed as the only argument and the
   * command is waited for.
   */
  function LaunchOutcome(profile: Profile, url: string): (r: Outcome)
    ensures r.Waited? <==> profile.executable.Some?
    ensures r.Waited? ==> r.argv == [profile.executable.value, RewrittenUrl(profile.changeUrl, url)]
    ensures r.MissingKey? ==> r.key == "executable"
    ensures r.Waited? || r.MissingKey?
  {
    match profile.executable
    case None => MissingKey("executable")
    case Some(executable) => Waited([executable, RewrittenUrl(profile.changeUrl, url)])
  }

  /** `launch`, step by step. */
  method Launch(profile: Profile, url: string) returns (outcome: Outcome)
    ensures outcome == LaunchOutcome(profile, url)
  {
    if profile.executable.None? {
      return MissingKey("executable");
    }
    var rewritten := RewriteUrl(profile.changeUrl, url);
    outcome := Waited([profile.executable.value, rewritten]);
  }

  /** `arguments_list` and `arguments_delimiter` make no difference to the command. */
  lemma ArgumentsIgnored(profile: Profile, url: string, list: Option<Dict<string>>, delimiter: Option<string>)
    ensures LaunchOutcome(profile.(argumentsList := list, argumentsDelimiter := delimiter), url)
      == LaunchOutcome(profile, url)
  {
  }

  /**
   * One invocation: check the URL, merge the configuration files in order,
   * select a profile by the URL's scheme, authority and path, launch it.
   */
  function Routed(files: seq<ConfigFile>, url: string, parsed: ParsedUrl): Outcome {
    match HttpUrl(url)
    case Failure(message) => UsageError(message)
    case Success(_) =>
      var config := MergeFiles(DefaultConfig(), files);
      DefaultKept(DefaultConfig(), files);
      var selected := Selected(config, parsed.scheme, parsed.netloc, EffectivePath(parsed.path));
      LaunchOutcome(selected.1, url)
  }

  /** The `__main__` block: argument check, merge loop, scan, and the one `launch` call. */
  method Route(files: seq<ConfigFile>, url: string, parsed: ParsedUrl) returns (outcome: Outcome)
    ensures outcome == Routed(files, url, parsed)
  {
    var checked := HttpUrl(url);
    if checked.Failure? {
      return UsageError(checked.error);
    }
    var config := MergeConfigFiles(DefaultConfig(), files);
    DefaultKept(DefaultConfig(), files);
    var launches := Scan(config, parsed.scheme, parsed.netloc, EffectivePath(parsed.path));
    outcome := Launch(launches[0].1, url);
  }

  /**
   * With no matching rule and no file touching `default`, the URL goes
   * unchanged to `firefox`.
   */
  lemma FallbackToFirefox(files: seq<ConfigFile>, url: string, parsed: ParsedUrl)
    requires Accepted(url)
    requires !AnyMentions(files, "default")
    requires FirstMatch(MergeFiles(DefaultConfig(), files), parsed.scheme, parsed.netloc,
      EffectivePath(parsed.path)).None?
    ensures Routed(files, url, parsed) == Waited(["firefox", url])
  {
    UnmentionedProfileUnchanged(DefaultConfig(), files, "default");
  }

  /**
   * Matching on the whole authority: a `domain` rule stops matching once
   * the URL carries a port, where matching on the host name still would.
   */
  lemma PortDefeatsDomain()
    ensures !RuleMatches(Rule(None, Some("example.com"), None, None), "http", "example.com:8080", "/")
    ensures RuleMatches(Rule(None, Some("example.com"), None, None), "http", "example.com", "/")
  {
    var netloc := "example.com:8080";
    assert netloc[|netloc| - |Sentinel|..] != Sentinel by {
      assert netloc[|netloc| - 1] == '0';
    }
    assert "/" + "" == "/";
  }
}
