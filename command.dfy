/**
 * The argument vector `launch` builds, and what an invocation ends in.
 */
module Command {
  import opened Wrappers
  import opened OrderedDict

  /**
   * How an invocation ends: a child process started detached (`Popen`
   * with a new session) or waited for (`check_call`), a desktop
   * notification instead of a launch, a `KeyError` for a missing profile
   * key, or the argument check's refusal.
   */
  datatype Outcome =
    | Detached(argv: seq<string>)
    | Waited(argv: seq<string>)
    | Notified(urgency: int, summary: string, body: string)
    | MissingKey(key: string)
    | UsageError(message: string)

  /** `key + delimiter + value` for each `arguments_list` item, in order. */
  function Arguments(list: Dict<string>, delimiter: string): (args: seq<string>)
    ensures |args| == |list|
    ensures forall k :: 0 <= k < |list| ==> args[k] == list[k].0 + delimiter + list[k].1
    decreases |list|
  {
    if list == [] then []
    else
      var last := list[|list| - 1];
      Arguments(list[..|list| - 1], delimiter) + [last.0 + delimiter + last.1]
  }

  /** The executable, one argument per `arguments_list` item, then the URL. */
  function CommandLine(executable: string, list: Dict<string>, delimiter: string, url: string)
    : (argv: seq<string>)
    ensures |argv| == 2 + |list|
    ensures argv[0] == executable && argv[|argv| - 1] == url
    ensures forall k :: 0 <= k < |list| ==> argv[k + 1] == list[k].0 + delimiter + list[k].1
  {
    [executable] + Arguments(list, delimiter) + [url]
  }

  /** `arguments_list` is present and non-empty. */
  predicate HasArguments(list: Option<Dict<string>>) {
    list.Some? && |list.value| > 0
  }

  /**
   * The `cmd` list of `launch`, appended to item by item. The delimiter is
   * read only when there are arguments; a string delimiter that is falsy
   * is the empty string already.
   */
  method BuildCommand(executable: string, list: Option<Dict<string>>, delimiter: Option<string>,
                      url: string) returns (cmd: seq<string>)
    requires HasArguments(list) ==> delimiter.Some?
    ensures cmd == CommandLine(executable, list.GetOr([]), delimiter.GetOr(""), url)
  {
    cmd := [executable];
    if HasArguments(list) {
      var items := list.value;
      var i := 0;
      while i < |items|
        invariant 0 <= i <= |items|
        invariant cmd == [executable] + Arguments(items[..i], delimiter.value)
      {
        assert items[..i + 1][..i] == items[..i];
        var (key, value) := items[i];
        cmd := cmd + [key + delimiter.value + value];
        i := i + 1;
      }
      assert items[..i] == items;
    }
    cmd := cmd + [url];
  }
}
