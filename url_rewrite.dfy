/**
 * The URL rewrite of `launch`: each `transform_original_url` pair in order
 * replaces every occurrence of `from` by `to` (a pair with an empty or
 * missing side is skipped), then a non-empty `prefix` is prepended.
 */
module UrlRewrite {
  import opened Wrappers
  import opened Strings
  import opened Profiles

  /** Both sides of the pair are set and non-empty. */
  predicate Effective(t: Transform) {
    t.from.GetOr("") != "" && t.to.GetOr("") != ""
  }

  /** One pair applied to `url`. */
  function ApplyTransform(url: string, t: Transform): string {
    if Effective(t) then ReplaceAll(url, t.from.value, t.to.value) else url
  }

  /** The pairs applied in order, each to the result of the previous one. */
  function ApplyTransforms(url: string, ts: seq<Transform>): string
    decreases |ts|
  {
    if ts == [] then url
    else ApplyTransform(ApplyTransforms(url, ts[..|ts| - 1]), ts[|ts| - 1])
  }

  /** The URL `launch` passes on: transforms first, then the prefix; `{}` when `change_url` is absent. */
  function RewrittenUrl(change: Option<ChangeUrl>, url: string): (r: string)
    ensures change.None? ==> r == url
    ensures change.Some? && change.value.prefix.GetOr("") != "" ==> StartsWith(r, change.value.prefix.value)
    ensures change.Some? && change.value.transforms.GetOr([]) == [] ==> r == change.value.prefix.GetOr("") + url
  {
    var spec := change.GetOr(ChangeUrl(None, None));
    var transformed := ApplyTransforms(url, spec.transforms.GetOr([]));
    var prefix := spec.prefix.GetOr("");
    if prefix != "" then prefix + transformed else transformed
  }

  /** The rewrite loop of `launch`, reassigning `url` pair by pair. */
  method RewriteUrl(change: Option<ChangeUrl>, original: string) returns (url: string)
    ensures url == RewrittenUrl(change, original)
  {
    url := original;
    var spec := change.GetOr(ChangeUrl(None, None));
    var prefix := spec.prefix.GetOr("");
    var transforms := spec.transforms.GetOr([]);
    var i := 0;
    while i < |transforms|
      invariant 0 <= i <= |transforms|
      invariant url == ApplyTransforms(original, transforms[..i])
    {
      assert transforms[..i + 1][..i] == transforms[..i];
      var t := transforms[i];
      if t.from.GetOr("") != "" && t.to.GetOr("") != "" {
        url := ReplaceAll(url, t.from.GetOr(""), t.to.GetOr(""));
      }
      i := i + 1;
    }
    assert transforms[..i] == transforms;
    if prefix != "" {
      url := prefix + url;
    }
  }

  /** The pairs with both sides non-empty, in order. */
  function EffectiveOnly(ts: seq<Transform>): (r: seq<Transform>)
    ensures forall k :: 0 <= k < |r| ==> Effective(r[k])
    decreases |ts|
  {
    if ts == [] then []
    else
      var rest := EffectiveOnly(ts[..|ts| - 1]);
      if Effective(ts[|ts| - 1]) then rest + [ts[|ts| - 1]] else rest
  }

  /** Applying `a` then `b` is applying `a + b`: the pairs act sequentially. */
  lemma {:induction false} TransformsCompose(url: string, a: seq<Transform>, b: seq<Transform>)
    ensures ApplyTransforms(url, a + b) == ApplyTransforms(ApplyTransforms(url, a), b)
    decreases |b|
  {
    if b == [] {
      assert a + b == a;
    } else {
      assert (a + b)[..|a + b| - 1] == a + b[..|b| - 1];
      TransformsCompose(url, a, b[..|b| - 1]);
    }
  }

  /** Pairs with an empty or missing side have no effect at all. */
  lemma {:induction false} IneffectivePairsSkipped(url: string, ts: seq<Transform>)
    ensures ApplyTransforms(url, ts) == ApplyTransforms(url, EffectiveOnly(ts))
    decreases |ts|
  {
    if ts != [] {
      var init := ts[..|ts| - 1];
      IneffectivePairsSkipped(url, init);
      if Effective(ts[|ts| - 1]) {
        var e := EffectiveOnly(init) + [ts[|ts| - 1]];
        assert e[..|e| - 1] == EffectiveOnly(init);
      }
    }
  }

  /**
   * Each effective pair is Python's `to.join(url.split(from))`, so a pair
   * whose `from` does not occur leaves the URL unchanged.
   */
  lemma TransformIsSplitJoin(url: string, t: Transform)
    requires Effective(t)
    ensures ApplyTransform(url, t) == Join(Split(url, t.from.value), t.to.value)
    ensures !Contains(url, t.from.value) ==> ApplyTransform(url, t) == url
  {
    ReplaceAllIsSplitJoin(url, t.from.value, t.to.value);
  }

  /** A pair whose `from` and `to` are the same string leaves the URL unchanged. */
  lemma IdentityPairKeepsUrl(url: string, s: string)
    requires s != ""
    ensures ApplyTransform(url, Transform(Some(s), Some(s))) == url
  {
    ReplaceAllSelf(url, s);
  }

  /**
   * Substitutions are sequential, not simultaneous: `a -> b` then `b -> c`
   * turns `aaa` into `ccc`, and the prefix comes in front afterwards.
   */
  lemma SequentialExample()
    ensures RewrittenUrl(Some(ChangeUrl(Some("https://x/"),
      Some([Transform(Some("a"), Some("b")), Transform(Some("b"), Some("c"))]))), "aaa")
      == "https://x/ccc"
  {
    var ts := [Transform(Some("a"), Some("b")), Transform(Some("b"), Some("c"))];
    assert ts[..1] == [ts[0]] && ts[..1][..0] == [];
    assert ReplaceAll("", "a", "b") == "";
    assert ReplaceAll("a", "a", "b") == "b";
    assert ReplaceAll("aa", "a", "b") == "bb";
    assert ReplaceAll("aaa", "a", "b") == "bbb";
    assert ReplaceAll("", "b", "c") == "";
    assert ReplaceAll("b", "b", "c") == "c";
    assert ReplaceAll("bb", "b", "c") == "cc";
    assert ReplaceAll("bbb", "b", "c") == "ccc";
    assert ApplyTransforms("aaa", ts[..1]) == "bbb";
    assert ApplyTransforms("aaa", ts) == "ccc";
  }
}
