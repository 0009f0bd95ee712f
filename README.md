# usbrowser routing engine in Dafny

A model of the core of *usbrowser*, a URL-specific browser launcher. It
takes a URL and a layered set of YAML configuration files. It picks the
first browser profile with a rule that matches the URL, rewrites the URL
for that profile, and builds the command that starts the browser.

The repository ships two near-duplicate programs. Both are modelled:

- `usbrowser.py` (module `UsBrowser`). The default browser is `chromium`.
  Rules are matched against the URL's host name. The executable is looked
  up with `shutil.which` before a detached launch. When it is not found,
  the user gets an urgency-2 notification instead. The command carries the
  profile's `arguments_list`.
- `usr/bin/usbrowser.py` (module `UsrBinUsBrowser`). The default browser is
  `firefox`. Rules are matched against the whole authority (`netloc`, with
  port and user information). There is no `which` check. The command is
  exactly `[executable, url]` and the launcher waits for it.

The shared logic lives in its own modules:

- `ConfigMerge` models the merge loop: `usbrowser.py:151-181` and
  `usr/bin/usbrowser.py:88-105`.
- `Matching` models the rule test and the scan: `usbrowser.py:185-243` and
  `usr/bin/usbrowser.py:108-138`.
- `UrlRewrite` models the URL rewrite: `usbrowser.py:57-69` and
  `usr/bin/usbrowser.py:29-36`.
- `UrlCheck` models the argument check: `usbrowser.py:14-24` and
  `usr/bin/usbrowser.py:14-25`.

Python dictionaries are lists of items in insertion order (`OrderedDict`).
Assigning to an existing key keeps its position. A new key is appended.
This matters because the scan visits profiles and groups in that order.
Profile settings are a record of optional keys. An absent key is `None`.

Each of these loops is a Dafny method whose postcondition equates its
result with a function: the merge loops (`MergeConfigFiles`,
`MergeDocumentInto`), the three nested scan loops with their `found` flag
(`Scan`), the rewrite loop (`RewriteUrl`) and the argument loop
(`BuildCommand`). The properties are proved about those functions.

One loop is not a method. The per-key overwrite loop over an existing
profile (`usbrowser.py:172-178`, `usr/bin/usbrowser.py:100-102`) is the
function `ConfigMerge.Overlay`. A profile is a record of five optional
keys, so each key the later item sets is written once, and the order of
the writes makes no difference.

Three behaviours of the code are easy to miss:

- `urls` is overwritten as a whole when a later file names an existing
  profile. It is not merged group by group (`ConfigMerge.UrlsReplacedWhole`).
- The path is only normalised when it is empty. A scheme-less argument such
  as `example.com` has path `example.com`. In `usr/bin/usbrowser.py`, which
  matches on `netloc`, not even a rule with no keys matches it, so the
  URL goes to `default` (`Matching.EmptyRuleMatches`). In `usbrowser.py`
  the host name of such an argument is `None`, and line 225 raises before
  the path is tested; that crash is not modelled (see "## Left out").
- An explicit `domain_suffix: ""` matches every host
  (`Matching.EmptySuffixMatchesAnyHost`).

## Model

| member | source | states |
|---|---|---|
| `OrderedDict.Get` | usbrowser.py:168 | a lookup that finds a value found the item stored under that key |
| `OrderedDict.Put` | usbrowser.py:170 | after `d[k] = v`, `k` maps to `v`, and at most one item was added |
| `OrderedDict.GetFinds` | usbrowser.py:168 | `name in config` holds iff the lookup finds the name, and then it finds the value stored beside it |
| `OrderedDict.PutKeys` | usbrowser.py:170 | `d[k] = v` keeps the key order when `k` exists and appends `k` otherwise; afterwards `k` maps to `v` |
| `OrderedDict.PutOthers` | usbrowser.py:177-178 | `d[k] = v` leaves the value of every other key unchanged |
| `ConfigMerge.Overlay` | usbrowser.py:171-178 | every key present in the later entry, `urls` included, overwrites; every absent key keeps its old value; overlaying values the profile already has changes nothing |
| `ConfigMerge.MergeEntry` | usbrowser.py:168-178 | after one item, its name maps to the item itself (new name) or to the old profile overlaid with it (existing name), and at most one profile was added |
| `ConfigMerge.MergeDocument` | usbrowser.py:163-178 | one file keeps every earlier profile name at its position, adds at most one profile per item, and its last item's name is present afterwards |
| `ConfigMerge.MergeFiles` | usbrowser.py:151-181 | merging the files keeps every earlier profile name at its position, so no profile is removed |
| `ConfigMerge.MergeEntryEffect` | usbrowser.py:168-178 | a new profile name is appended and holds the entry exactly as given; an existing name keeps its position and is overlaid; all other profiles are unchanged |
| `ConfigMerge.MergeDocumentInto` | usbrowser.py:163-178 | the loop over one file's items computes the left fold of the entry merge over the items in order |
| `ConfigMerge.MergeConfigFiles` | usbrowser.py:151-181 | the loop over the configuration files computes the left fold over the files in order, skipping missing ones |
| `ConfigMerge.MissingFilesSkipped` | usbrowser.py:180-181 | merging with missing files gives the same configuration as merging only the files that exist |
| `ConfigMerge.UnmentionedProfileUnchanged` | usbrowser.py:163-178 | a profile that no file names comes out of the merge exactly as it went in |
| `ConfigMerge.MergedNames` | usbrowser.py:168-170 | earlier profile names keep their positions; a name is present after the merge iff it was before or some file names it |
| `ConfigMerge.LastInDocumentWins` | usbrowser.py:163-178 | within one file, the last item naming a profile fixes every key that item sets |
| `ConfigMerge.LaterFileWins` | usbrowser.py:151-178 | later files take precedence: the last item across all files naming a profile fixes every key it sets |
| `ConfigMerge.FirstNameKept` | usbrowser.py:140 | the first profile of the starting configuration stays first and present after any merge |
| `ConfigMerge.UrlsReplacedWhole` | usbrowser.py:172-178 | a later `urls` holding group `g1` replaces the profile's whole `urls`, dropping its group `g2` |
| `ConfigMerge.DefaultKept` | usbrowser.py:140-181 | a starting configuration holding `default` still holds it after any merge, so the fallback `config["default"]` at line 243 cannot raise |
| `UrlCheck.AcceptedSchemes` | usbrowser.py:14-24 | an accepted URL containing `://` is an `ext+container:` URL, or the text before its first `://` is exactly `http` or `https` |
| `UrlCheck.RefusedExamples` | usbrowser.py:17-24 | `ftp://` and upper-case `HTTP://` URLs are refused; a URL without `://` is accepted |
| `Matching.EffectivePath` | usbrowser.py:146 | the path compared is never empty, and equals the URL's path when that is non-empty |
| `Matching.SentinelMeansUnset` | usbrowser.py:205-227 | the `..EMPTY..` sentinel behaves exactly like an absent key, provided the host does not end with it and no rule sets a key to it |
| `Matching.EmptyRuleMatches` | usbrowser.py:205-234 | a rule with no keys matches any scheme and host iff the path starts with `/` |
| `Matching.EmptySuffixMatchesAnyHost` | usbrowser.py:224-225 | a rule whose only key is `domain_suffix: ""` matches every host |
| `Matching.SuffixIsLiteral` | usbrowser.py:225 | `domain_suffix: example.com` matches host `notexample.com` (no dot boundary) |
| `Matching.RuleMatches` | usbrowser.py:205-234 | a matching rule needs a path starting with `/`; a set scheme (other than the sentinel) must equal the URL's; a rule with only `domain` set (not to the sentinel) matches only that exact host, or a host ending in `..EMPTY..` |
| `Matching.FirstMatch` | usbrowser.py:185-239 | returns the first profile, in insertion order, with a matching rule in one of its groups; `None` only when no profile has one |
| `Matching.Selected` | usbrowser.py:185-243 | when some profile has a matching rule, the selected profile is one of the configuration's and has a matching rule; when none has, it is `default` |
| `Matching.Scan` | usbrowser.py:185-243 | the nested loops with the `found` flag call `launch` exactly once: with the first matching profile, else with `default` |
| `Matching.FirstHit` | usbrowser.py:201-234 | the first (profile, group, rule) triple whose rule matches; `None` only when no rule matches |
| `Matching.SelectionFollowsRuleOrder` | usbrowser.py:185-243 | the selected profile is the profile of the first matching triple in profile, group, rule insertion order, or `default` when there is none |
| `UrlRewrite.RewrittenUrl` | usbrowser.py:57-69 | without `change_url` the URL passes unchanged; a non-empty prefix comes first in the result; with no pairs the result is the prefix followed by the URL |
| `UrlRewrite.RewriteUrl` | usbrowser.py:57-69 | the rewrite loop gives the ordered application of the transform pairs, then the non-empty prefix |
| `UrlRewrite.TransformsCompose` | usbrowser.py:61-66 | the pairs act sequentially: applying `a + b` is applying `a`, then `b` to the result |
| `UrlRewrite.IneffectivePairsSkipped` | usbrowser.py:62-63 | pairs whose `from` or `to` is empty or missing have no effect |
| `UrlRewrite.TransformIsSplitJoin` | usbrowser.py:64-66 | each pair is `to.join(url.split(from))`; a `from` that does not occur leaves the URL unchanged |
| `UrlRewrite.IdentityPairKeepsUrl` | usbrowser.py:61-66 | a pair whose `from` and `to` are the same string leaves the URL unchanged |
| `UrlRewrite.SequentialExample` | usbrowser.py:61-69 | `a -> b` then `b -> c` with prefix `https://x/` turns `aaa` into `https://x/ccc` |
| `Strings.ReplaceAll` | usbrowser.py:64-66 | `str.replace` leaves a string without an occurrence of `from` unchanged |
| `Strings.ReplaceAllIsSplitJoin` | usbrowser.py:64-66 | `str.replace` as modelled (left-to-right, non-overlapping) equals joining the `split` parts with the replacement |
| `Command.Arguments` | usbrowser.py:73-85 | one `key + delimiter + value` string per `arguments_list` item, in item order |
| `Command.CommandLine` | usbrowser.py:53-87 | the command has 2 + the number of arguments elements: the executable first, the arguments in order, the URL last |
| `Command.BuildCommand` | usbrowser.py:53-87 | the append loop builds exactly that command, reading the delimiter only when there are arguments |
| `UsBrowser.DefaultConfig` | usbrowser.py:140 | the starting configuration holds only `default`, running `chromium` |
| `UsBrowser.HttpUrl` | usbrowser.py:14-24 | returns the URL unchanged iff it starts with `http://`, `https://` or `ext+container:` or has no `://`; otherwise fails with `Not an HTTP/HTTPS URL: <url>` |
| `UsBrowser.LaunchOutcome` | usbrowser.py:49-111 | launches detached iff the executable is set and found and arguments come with a delimiter; notifies with urgency 2 about the original URL iff the executable is set and not found; the argv is the executable, then one `key + delimiter + value` per `arguments_list` item in order (delimiter `''` when absent), then the rewritten URL |
| `UsBrowser.Launch` | usbrowser.py:49-111 | the step-by-step `launch` has exactly that outcome |
| `UsBrowser.Route` | usbrowser.py:134-243 | check, merge, scan on host name, one launch, as composed by `Routed` |
| `UsBrowser.FallbackToChromium` | usbrowser.py:241-243 | with no matching rule and no file naming `default`, the URL goes unchanged to `chromium`, or to a notification when it is not found |
| `UsBrowser.WorkScenario` | usbrowser.py:155-239 | a user file's `work` profile with a `corp.internal` / `jira` rule sends the Jira URL to `firefox-beta --profile=work <url>` |
| `UsrBinUsBrowser.DefaultConfig` | usr/bin/usbrowser.py:81 | the starting configuration holds only `default`, running `firefox` |
| `UsrBinUsBrowser.HttpUrl` | usr/bin/usbrowser.py:14-25 | the same acceptance rule; the failure message puts the URL in quotes |
| `UsrBinUsBrowser.LaunchOutcome` | usr/bin/usbrowser.py:27-43 | waits for `[executable, rewritten url]` iff the executable is set; otherwise `KeyError` on `executable` |
| `UsrBinUsBrowser.Launch` | usr/bin/usbrowser.py:27-43 | the step-by-step `launch` has exactly that outcome |
| `UsrBinUsBrowser.ArgumentsIgnored` | usr/bin/usbrowser.py:38 | `arguments_list` and `arguments_delimiter` make no difference to the command |
| `UsrBinUsBrowser.Route` | usr/bin/usbrowser.py:66-138 | check, merge, scan on `netloc`, one launch, as composed by `Routed` |
| `UsrBinUsBrowser.FallbackToFirefox` | usr/bin/usbrowser.py:136-138 | with no matching rule and no file naming `default`, the command is `[firefox, url]` |
| `UsrBinUsBrowser.PortDefeatsDomain` | usr/bin/usbrowser.py:129 | matching on `netloc`, a `domain: example.com` rule fails for `example.com:8080` and holds for `example.com` |

## Left out

- Command-line parsing (`argparse`), logging and `syslog` are left out. They are I/O. The `UsageError` outcome carries the message that `http_url` raises.
- The D-Bus notification transport (`usbrowser.py:26-46`) is left out. It is a foreign call. The `Notified` outcome records urgency, summary and body.
- Starting the process (`subprocess.Popen`, `subprocess.check_call`) is left out. It is OS process control. `Detached` and `Waited` record the argv.
- The `CalledProcessError` handling and re-raise are left out, as is a non-zero exit status of the waited-for browser. Both are OS process control.
- `shutil.which` is left out because it looks up the filesystem. It is the parameter `found`.
- Opening files and `yaml.safe_load` are left out. They are I/O and a library parser. A file is `Missing` or an already parsed mapping. The two fixed file paths per variant are not modelled.
- An empty or non-mapping YAML document is excluded by the `ConfigFile` type. The source crashes on it at `data.items()`.
- YAML values are modelled as strings only. Numbers, booleans or `null` in `executable`, `arguments_delimiter`, `from`, `to` or `prefix` are not modelled, nor is the falsy non-string delimiter that becomes `''`. Values of the wrong shape, such as `urls` not being a mapping, are not modelled either. The source raises a `TypeError` or `AttributeError` on them.
- Top-level profile keys other than the five the launcher reads are not modelled. Neither is the order of keys inside a profile. Nothing reads them.
- `urllib.parse.urlparse` is left out because it is a library parser. `ParsedUrl` takes its `scheme`, `hostname`, `netloc` and `path` as inputs. The relation between these and the URL string, and the lower-casing of `hostname`, are not modelled.
- `hostname` is taken to be a string. `usbrowser.py:225` raises `AttributeError` when `urlparse` gives `None`, for example for a scheme-less argument. That crash is not modelled.
- `launch`'s `bw_name` argument is left out. It appears only in log and `syslog` messages.
- Profiles shared through YAML anchors and aliases are modelled as independent copies. `usbrowser.py:170` stores the parsed dict object itself, and lines 177-178 then change it in place. So when `b: *p` aliases `a: &p {...}` in one file and a later file sets keys of `a`, the source changes `b` too; the model does not (`LaterFileWins` describes the unshared case).
- A parsed document may name the same profile twice in the model. `yaml.safe_load` never produces that, because a mapping keeps only the last value for a repeated key. On such input the model merges both items one after the other. `LastInDocumentWins` therefore also covers a case the program never sees; for unique names it says the item fixes every key it sets.
- `Strings.ReplaceAll` requires a non-empty `from`. Python's `replace` with an empty `from` inserts text between characters, but `launch` skips such pairs before calling it.
