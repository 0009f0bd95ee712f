/**
 * Layered configuration: the built-in default configuration, then each
 * configuration file in order (system-wide first, then the user's), each
 * profile of a file folded into the configuration as `__main__` does.
 */
module ConfigMerge {
  import opened Wrappers
  import opened OrderedDict
  import opened Profiles

  /** Every key absent from `update` has the value it has in `base`. */
  predicate KeepsAbsent(r: Profile, base: Profile, update: Profile) {
    && (update.executable.None? ==> r.executable == base.executable)
    && (update.argumentsList.None? ==> r.argumentsList == base.argumentsList)
    && (update.argumentsDelimiter.None? ==> r.argumentsDelimiter == base.argumentsDelimiter)
    && (update.changeUrl.None? ==> r.changeUrl == base.changeUrl)
    && (update.urls.None? ==> r.urls == base.urls)
  }

  /**
   * `config[name][key] = value` for each top-level key of `update`: a
   * present key (`urls` included, as a whole) overwrites, an absent one
   * keeps the old value.
   */
  function Overlay(base: Profile, update: Profile): (r: Profile)
    ensures Agrees(r, update) && KeepsAbsent(r, base, update)
    ensures Agrees(base, update) ==> r == base
  {
    Profile(
      if update.executable.Some? then update.executable else base.executable,
      if update.argumentsList.Some? then update.argumentsList else base.argumentsList,
      if update.argumentsDelimiter.Some? then update.argumentsDelimiter else base.argumentsDelimiter,
      if update.changeUrl.Some? then update.changeUrl else base.changeUrl,
      if update.urls.Some? then update.urls else base.urls)
  }

  /** The profile that `name` has after folding in `p`. */
  function Merged(existing: Option<Profile>, p: Profile): Profile {
    match existing
    case None => p
    case Some(q) => Overlay(q, p)
  }

  /**
   * One `browser_name, browser_data` item of a file: a new name is
   * inserted wholesale at the end, an existing one is overlaid in place.
   */
  function MergeEntry(config: Config, name: string, p: Profile): (r: Config)
    ensures Get(r, name) == Some(Merged(Get(config, name), p))
    ensures |config| <= |r| <= |config| + 1
  {
    match Get(config, name)
    case None => Put(config, name, p)
    case Some(q) => Put(config, name, Overlay(q, p))
  }

  /**
   * A new name is appended and holds `p` as given; an existing name keeps
   * its position and is overlaid with `p`; every other profile is unchanged.
   */
  lemma MergeEntryEffect(config: Config, name: string, p: Profile)
    ensures Keys(MergeEntry(config, name, p))
      == if name in Keys(config) then Keys(config) else Keys(config) + [name]
    ensures Get(MergeEntry(config, name, p), name) == Some(Merged(Get(config, name), p))
    ensures forall n :: n != name ==> Get(MergeEntry(config, name, p), n) == Get(config, n)
  {
    GetFinds(config, name);
    PutKeys(config, name, Merged(Get(config, name), p));
    forall n | n != name ensures Get(MergeEntry(config, name, p), n) == Get(config, n) {
      PutOthers(config, name, Merged(Get(config, name), p), n);
    }
  }

  /**
   * All items of one parsed file, in order: every earlier profile name
   * keeps its position, each item adds at most one profile, and the last
   * item's name is present afterwards.
   */
  function MergeDocument(config: Config, doc: Dict<Profile>): (r: Config)
    ensures Keys(config) <= Keys(r)
    ensures |config| <= |r| <= |config| + |doc|
    ensures doc != [] ==> Get(r, doc[|doc| - 1].0).Some?
    decreases |doc|
  {
    if doc == [] then config
    else
      var last := doc[|doc| - 1];
      var before := MergeDocument(config, doc[..|doc| - 1]);
      MergeEntryEffect(before, last.0, last.1);
      MergeEntry(before, last.0, last.1)
  }

  /** A missing file (`FileNotFoundError`) is skipped. */
  function MergeFile(config: Config, file: ConfigFile): Config {
    match file
    case Missing => config
    case Parsed(doc) => MergeDocument(config, doc)
  }

  /** All files, in order; every earlier profile name keeps its position. */
  function MergeFiles(config: Config, files: seq<ConfigFile>): (r: Config)
    ensures Keys(config) <= Keys(r)
    ensures |config| <= |r|
    decreases |files|
  {
    if files == [] then config
    else MergeFile(MergeFiles(config, files[..|files| - 1]), files[|files| - 1])
  }

  /** The loop over one file's `data.items()`, `config` updated item by item. */
  method MergeDocumentInto(initial: Config, doc: Dict<Profile>) returns (config: Config)
    ensures config == MergeDocument(initial, doc)
  {
    config := initial;
    var j := 0;
    while j < |doc|
      invariant 0 <= j <= |doc|
      invariant config == MergeDocument(initial, doc[..j])
    {
      var (name, data) := doc[j];
      ghost var before := config;
      var existing := Get(config, name);
      if existing.None? {
        config := Put(config, name, data);
      } else {
        config := Put(config, name, Overlay(existing.value, data));
      }
      assert config == MergeEntry(before, name, data);
      NextEntry(initial, doc, j);
      j := j + 1;
    }
    assert doc[..j] == doc;
  }

  /** The loop over the configuration files of `__main__`. */
  method MergeConfigFiles(initial: Config, files: seq<ConfigFile>) returns (config: Config)
    ensures config == MergeFiles(initial, files)
  {
    config := initial;
    var i := 0;
    while i < |files|
      invariant 0 <= i <= |files|
      invariant config == MergeFiles(initial, files[..i])
    {
      assert files[..i + 1][..i] == files[..i];
      if files[i].Parsed? {
        config := MergeDocumentInto(config, files[i].doc);
      }
      i := i + 1;
    }
    assert files[..i] == files;
  }

  lemma NextEntry(config: Config, doc: Dict<Profile>, j: nat)
    requires j < |doc|
    ensures MergeDocument(config, doc[..j + 1])
      == MergeEntry(MergeDocument(config, doc[..j]), doc[j].0, doc[j].1)
  {
    assert doc[..j + 1][..j] == doc[..j];
  }

  /** The file names `n` as a profile. */
  predicate DocMentions(doc: Dict<Profile>, n: string) {
    exists j :: 0 <= j < |doc| && doc[j].0 == n
  }

  predicate FileMentions(file: ConfigFile, n: string) {
    file.Parsed? && DocMentions(file.doc, n)
  }

  /** The files that exist, in order. */
  function Present(files: seq<ConfigFile>): (r: seq<ConfigFile>)
    ensures forall i :: 0 <= i < |r| ==> r[i].Parsed?
    decreases |files|
  {
    if files == [] then []
    else
      var rest := Present(files[..|files| - 1]);
      if files[|files| - 1].Parsed? then rest + [files[|files| - 1]] else rest
  }

  lemma {:induction false} MergeDocumentAppend(config: Config, a: Dict<Profile>, b: Dict<Profile>)
    ensures MergeDocument(config, a + b) == MergeDocument(MergeDocument(config, a), b)
    decreases |b|
  {
    if b == [] {
      assert a + b == a;
    } else {
      assert (a + b)[..|a + b| - 1] == a + b[..|b| - 1];
      MergeDocumentAppend(config, a, b[..|b| - 1]);
    }
  }

  lemma {:induction false} MergeFilesAppend(config: Config, a: seq<ConfigFile>, b: seq<ConfigFile>)
    ensures MergeFiles(config, a + b) == MergeFiles(MergeFiles(config, a), b)
    decreases |b|
  {
    if b == [] {
      assert a + b == a;
    } else {
      assert (a + b)[..|a + b| - 1] == a + b[..|b| - 1];
      MergeFilesAppend(config, a, b[..|b| - 1]);
    }
  }

  /** Missing configuration files leave the configuration unchanged. */
  lemma {:induction false} MissingFilesSkipped(config: Config, files: seq<ConfigFile>)
    ensures MergeFiles(config, files) == MergeFiles(config, Present(files))
    decreases |files|
  {
    if files != [] {
      var init := files[..|files| - 1];
      MissingFilesSkipped(config, init);
      if files[|files| - 1].Parsed? {
        var p := Present(init) + [files[|files| - 1]];
        assert p[..|p| - 1] == Present(init);
      }
    }
  }

  lemma {:induction false} UnmentionedInDocument(config: Config, doc: Dict<Profile>, n: string)
    requires !DocMentions(doc, n)
    ensures Get(MergeDocument(config, doc), n) == Get(config, n)
    decreases |doc|
  {
    if doc != [] {
      assert doc[|doc| - 1].0 != n;
      UnmentionedInDocument(config, doc[..|doc| - 1], n);
      MergeEntryEffect(MergeDocument(config, doc[..|doc| - 1]), doc[|doc| - 1].0, doc[|doc| - 1].1);
    }
  }

  /** A profile that no file names comes out exactly as it went in. */
  lemma {:induction false} UnmentionedProfileUnchanged(config: Config, files: seq<ConfigFile>, n: string)
    requires !AnyMentions(files, n)
    ensures Get(MergeFiles(config, files), n) == Get(config, n)
    decreases |files|
  {
    if files != [] {
      var last := files[|files| - 1];
      UnmentionedProfileUnchanged(config, files[..|files| - 1], n);
      if last.Parsed? {
        assert !FileMentions(last, n);
        UnmentionedInDocument(MergeFiles(config, files[..|files| - 1]), last.doc, n);
      }
    }
  }

  lemma {:induction false} DocumentKeysGrow(config: Config, doc: Dict<Profile>)
    ensures Keys(config) <= Keys(MergeDocument(config, doc))
    ensures forall n :: n in Keys(MergeDocument(config, doc)) <==> n in Keys(config) || DocMentions(doc, n)
    decreases |doc|
  {
    if doc != [] {
      var init := doc[..|doc| - 1];
      DocumentKeysGrow(config, init);
      MergeEntryEffect(MergeDocument(config, init), doc[|doc| - 1].0, doc[|doc| - 1].1);
      DocMentionsSnoc(doc);
    }
  }

  lemma DocMentionsSnoc(doc: Dict<Profile>)
    requires doc != []
    ensures forall n :: DocMentions(doc, n) <==> DocMentions(doc[..|doc| - 1], n) || doc[|doc| - 1].0 == n
  {
    var init := doc[..|doc| - 1];
    forall n ensures DocMentions(doc, n) <==> DocMentions(init, n) || doc[|doc| - 1].0 == n {
      if DocMentions(doc, n) && doc[|doc| - 1].0 != n {
        var j :| 0 <= j < |doc| && doc[j].0 == n;
        assert init[j].0 == n;
      }
    }
  }

  /** Some file names `n` as a profile. */
  predicate AnyMentions(files: seq<ConfigFile>, n: string) {
    exists i :: 0 <= i < |files| && FileMentions(files[i], n)
  }

  lemma AnyMentionsSnoc(files: seq<ConfigFile>, n: string)
    requires files != []
    ensures AnyMentions(files, n) <==>
      AnyMentions(files[..|files| - 1], n) || FileMentions(files[|files| - 1], n)
  {
    var init := files[..|files| - 1];
    if AnyMentions(init, n) {
      var i :| 0 <= i < |init| && FileMentions(init[i], n);
      assert files[i] == init[i];
    }
    if AnyMentions(files, n) {
      var i :| 0 <= i < |files| && FileMentions(files[i], n);
      if i < |init| { assert init[i] == files[i]; }
    }
  }

  /**
   * Merging only appends profile names: the earlier names keep their
   * positions, and a name is present afterwards iff it was before or some
   * file names it.
   */
  lemma {:induction false} MergedNames(config: Config, files: seq<ConfigFile>)
    ensures Keys(config) <= Keys(MergeFiles(config, files))
    ensures forall n :: n in Keys(MergeFiles(config, files)) <==> n in Keys(config) || AnyMentions(files, n)
    decreases |files|
  {
    if files != [] {
      var init := files[..|files| - 1];
      var last := files[|files| - 1];
      MergedNames(config, init);
      if last.Parsed? {
        DocumentKeysGrow(MergeFiles(config, init), last.doc);
      }
      forall n ensures AnyMentions(files, n) <==> AnyMentions(init, n) || FileMentions(last, n) {
        AnyMentionsSnoc(files, n);
      }
    }
  }

  lemma MergedAgrees(existing: Option<Profile>, p: Profile)
    ensures Agrees(Merged(existing, p), p)
  {
  }

  /** Within one file, the last item naming `n` fixes every key it sets. */
  lemma LastInDocumentWins(config: Config, doc: Dict<Profile>, j: nat)
    requires j < |doc|
    requires forall k :: j < k < |doc| ==> doc[k].0 != doc[j].0
    ensures Get(MergeDocument(config, doc), doc[j].0).Some?
    ensures Agrees(Get(MergeDocument(config, doc), doc[j].0).value, doc[j].1)
  {
    var n := doc[j].0;
    var head, tail := doc[..j + 1], doc[j + 1..];
    assert doc == head + tail;
    MergeDocumentAppend(config, head, tail);
    assert head[..j] == doc[..j];
    var mid := MergeDocument(config, head);
    assert mid == MergeEntry(MergeDocument(config, doc[..j]), n, doc[j].1);
    MergeEntryEffect(MergeDocument(config, doc[..j]), n, doc[j].1);
    MergedAgrees(Get(MergeDocument(config, doc[..j]), n), doc[j].1);
    assert !DocMentions(tail, n);
    UnmentionedInDocument(mid, tail, n);
  }

  /**
   * Later files take precedence: the last item, across all files, that
   * names profile `n` fixes every key it sets.
   */
  lemma LaterFileWins(config: Config, files: seq<ConfigFile>, i: nat, j: nat)
    requires i < |files| && files[i].Parsed? && j < |files[i].doc|
    requires forall k :: j < k < |files[i].doc| ==> files[i].doc[k].0 != files[i].doc[j].0
    requires !AnyMentions(files[i + 1..], files[i].doc[j].0)
    ensures Get(MergeFiles(config, files), files[i].doc[j].0).Some?
    ensures Agrees(Get(MergeFiles(config, files), files[i].doc[j].0).value, files[i].doc[j].1)
  {
    var n := files[i].doc[j].0;
    var head, tail := files[..i + 1], files[i + 1..];
    assert files == head + tail;
    MergeFilesAppend(config, head, tail);
    assert head[..i] == files[..i];
    LastInDocumentWins(MergeFiles(config, files[..i]), files[i].doc, j);
    UnmentionedProfileUnchanged(MergeFiles(config, head), tail, n);
  }

  /**
   * The first profile name of the starting configuration stays first and
   * present, whatever the files hold: the scan always visits it first and
   * the fallback lookup always finds it.
   */
  lemma FirstNameKept(config: Config, files: seq<ConfigFile>)
    requires config != []
    ensures Keys(MergeFiles(config, files)) != []
    ensures Keys(MergeFiles(config, files))[0] == config[0].0
    ensures Get(MergeFiles(config, files), config[0].0).Some?
  {
    MergedNames(config, files);
    KeysAt(config, 0);
    GetFinds(MergeFiles(config, files), config[0].0);
  }

  /**
   * The starting configuration's `default` profile survives every merge,
   * so the fallback `launch` of `config["default"]` cannot raise.
   */
  lemma DefaultKept(start: Config, files: seq<ConfigFile>)
    requires Get(start, "default").Some?
    ensures Get(MergeFiles(start, files), "default").Some?
  {
    GetFinds(start, "default");
    MergedNames(start, files);
    GetFinds(MergeFiles(start, files), "default");
  }

  /**
   * `urls` is overwritten as one key: a later file that lists group `g1`
   * for an existing profile drops that profile's other groups.
   */
  lemma UrlsReplacedWhole(base: Profile, r1: Rule, r2: Rule, r3: Rule)
    requires base.urls == Some([("g1", [r1]), ("g2", [r2])])
    ensures Get(MergeFiles([("work", base)],
      [Parsed([("work", Profile(None, None, None, None, Some([("g1", [r3])])))])]), "work")
      == Some(base.(urls := Some([("g1", [r3])])))
  {
    var files := [Parsed([("work", Profile(None, None, None, None, Some([("g1", [r3])])))])];
    assert files[..0] == [];
    var doc := files[0].doc;
    assert doc[..0] == [];
    var c: Config := [("work", base)];
    assert Get(c, "work") == Some(base);
    assert MergeFiles(c, files) == MergeDocument(c, doc);
    assert MergeDocument(c, doc) == MergeEntry(c, "work", doc[0].1);
    MergeEntryEffect(c, "work", doc[0].1);
    assert Overlay(base, doc[0].1) == base.(urls := Some([("g1", [r3])]));
  }
}
