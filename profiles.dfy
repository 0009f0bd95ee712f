/**
 * The launcher's configuration, as `yaml.safe_load` hands it over: a
 * mapping from profile (browser) name to that profile's settings. Each
 * optional key is an `Option`: `None` when the YAML mapping lacks it.
 */
module Profiles {
  import opened Wrappers
  import opened OrderedDict

  /** One entry of a `urls` group. */
  datatype Rule = Rule(
    scheme: Option<string>,
    domain: Option<string>,
    domainSuffix: Option<string>,
    pathStart: Option<string>)

  /** One entry of `change_url.transform_original_url`. */
  datatype Transform = Transform(from: Option<string>, to: Option<string>)

  /** The `change_url` mapping. */
  datatype ChangeUrl = ChangeUrl(prefix: Option<string>, transforms: Option<seq<Transform>>)

  /**
   * The settings of one profile: `executable`, `arguments_list`,
   * `arguments_delimiter`, `change_url` and `urls` (group name to rules).
   */
  datatype Profile = Profile(
    executable: Option<string>,
    argumentsList: Option<Dict<string>>,
    argumentsDelimiter: Option<string>,
    changeUrl: Option<ChangeUrl>,
    urls: Option<Dict<seq<Rule>>>)

  /** A profile with the single key `executable`. */
  function ExecutableOnly(executable: string): Profile {
    Profile(Some(executable), None, None, None, None)
  }

  /** Profile name to profile, in insertion order. */
  type Config = Dict<Profile>

  /** A configuration file: absent, or the mapping it parsed to. */
  datatype ConfigFile = Missing | Parsed(doc: Dict<Profile>)

  /** Every key present in `p` has the same value in `q`. */
  predicate Agrees(q: Profile, p: Profile) {
    && (p.executable.Some? ==> q.executable == p.executable)
    && (p.argumentsList.Some? ==> q.argumentsList == p.argumentsList)
    && (p.argumentsDelimiter.Some? ==> q.argumentsDelimiter == p.argumentsDelimiter)
    && (p.changeUrl.Some? ==> q.changeUrl == p.changeUrl)
    && (p.urls.Some? ==> q.urls == p.urls)
  }
}
