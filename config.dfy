/** Process configuration: the module constants and `_ensure_no_proxy`, which
    makes sure that the loopback host names bypass any HTTP proxy. */
module Config {
  import opened Text

  const MAX_CONCURRENCY: nat := 2
  const EDITOR_SLOTS: nat := 8

  /** The "automatic (keep the original format)" entry of the compress menu. */
  const COMPRESS_FORMAT_AUTO: string := "自动（保持原格式）"
  const COMPRESS_FORMAT_CHOICES: seq<string> := [COMPRESS_FORMAT_AUTO, "WEBP", "JPG", "PNG"]

  const NO_PROXY_KEYS: seq<string> := ["NO_PROXY", "no_proxy"]
  const LOOPBACK_HOSTS: seq<string> := ["127.0.0.1", "localhost"]

  lemma ConstantsAsConfigured()
    ensures MAX_CONCURRENCY == 2 && EDITOR_SLOTS == 8
    ensures |COMPRESS_FORMAT_CHOICES| == 4 && COMPRESS_FORMAT_CHOICES[0] == COMPRESS_FORMAT_AUTO
    ensures COMPRESS_FORMAT_AUTO !in COMPRESS_FORMAT_CHOICES[1..]
  {
  }

  // ---------------------------------------------------------------------------
  // The value written back for one key

  /** `[p.strip() for p in pieces if p.strip()]`. */
  function CleanParts(pieces: seq<string>): seq<string> {
    if pieces == [] then []
    else
      var last := Trim(pieces[|pieces| - 1]);
      CleanParts(pieces[..|pieces| - 1]) + (if last != "" then [last] else [])
  }

  /** Non-empty and without whitespace at either end. */
  predicate AllClean(parts: seq<string>) {
    forall k :: 0 <= k < |parts| ==> parts[k] != "" && Trimmed(parts[k])
  }

  predicate NoComma(parts: seq<string>) {
    forall k :: 0 <= k < |parts| ==> ',' !in parts[k]
  }

  /** Every kept part is non-empty and has no whitespace at its ends. */
  lemma {:induction false} CleanPartsAreClean(pieces: seq<string>)
    ensures AllClean(CleanParts(pieces))
  {
    if pieces != [] {
      var init := pieces[..|pieces| - 1];
      var last := Trim(pieces[|pieces| - 1]);
      CleanPartsAreClean(init);
      var tail := if last != "" then [last] else [];
      assert AllClean(tail);
      AllCleanConcat(CleanParts(init), tail);
    }
  }

  lemma AllCleanConcat(a: seq<string>, b: seq<string>)
    requires AllClean(a) && AllClean(b)
    ensures AllClean(a + b)
  {
    forall k | 0 <= k < |a + b| ensures (a + b)[k] != "" && Trimmed((a + b)[k]) {
      if k < |a| { assert (a + b)[k] == a[k]; } else { assert (a + b)[k] == b[k - |a|]; }
    }
  }

  lemma NoCommaConcat(a: seq<string>, b: seq<string>)
    requires NoComma(a) && NoComma(b)
    ensures NoComma(a + b)
  {
    forall k | 0 <= k < |a + b| ensures ',' !in (a + b)[k] {
      if k < |a| { assert (a + b)[k] == a[k]; } else { assert (a + b)[k] == b[k - |a|]; }
    }
  }

  /** Clean-up introduces no separator. */
  lemma {:induction false} CleanPartsNoComma(pieces: seq<string>)
    requires NoComma(pieces)
    ensures NoComma(CleanParts(pieces))
  {
    if pieces != [] {
      var init := pieces[..|pieces| - 1];
      var last := Trim(pieces[|pieces| - 1]);
      assert NoComma(init) by {
        forall k | 0 <= k < |init| ensures ',' !in init[k] { assert init[k] == pieces[k]; }
      }
      CleanPartsNoComma(init);
      TrimIsInfix(pieces[|pieces| - 1]);
      var tail := if last != "" then [last] else [];
      assert NoComma(tail);
      NoCommaConcat(CleanParts(init), tail);
    }
  }

  /** The inner `for host in hosts: if host not in parts: parts.append(host)`. */
  function AddMissing(parts: seq<string>, hosts: seq<string>): seq<string> {
    if hosts == [] then parts
    else
      var p := AddMissing(parts, hosts[..|hosts| - 1]);
      var h := hosts[|hosts| - 1];
      if h in p then p else p + [h]
  }

  /** The hosts of `hosts` that `parts` lacks, in the order of `hosts`. */
  function MissingHosts(parts: seq<string>, hosts: seq<string>): seq<string> {
    if hosts == [] then []
    else (if hosts[0] in parts then [] else [hosts[0]]) + MissingHosts(parts, hosts[1..])
  }

  /** The comma parts of the value `_ensure_no_proxy` writes for a key whose
      previous value was `val` (`""` when unset). */
  function NoProxyParts(val: string): seq<string> {
    AddMissing(CleanParts(Split(val, ',')), LOOPBACK_HOSTS)
  }

  /** The value written back: it splits at commas into exactly the fixed-up
      parts, each trimmed and non-empty. */
  function NoProxyValue(val: string): (r: string)
    ensures Split(r, ',') == NoProxyParts(val)
    ensures AllClean(NoProxyParts(val))
  {
    var pieces := Split(val, ',');
    var clean := CleanParts(pieces);
    CleanPartsAreClean(pieces);
    assert NoComma(pieces);
    CleanPartsNoComma(pieces);
    var m := MissingHosts(clean, LOOPBACK_HOSTS);
    LoopbackMissing(clean);
    NoProxyPartsShape(val);
    var parts := NoProxyParts(val);
    assert parts == clean + m;
    AllCleanConcat(clean, m);
    NoCommaConcat(clean, m);
    assert |parts| >= 1;
    SplitJoin(parts, ',');
    Join(parts, ',')
  }

  /** One iteration of the outer loop: split, trim, drop empty parts, append
      the missing loopback hosts, join with commas. */
  method NoProxyFor(val: string) returns (joined: string)
    ensures joined == NoProxyValue(val)
  {
    var pieces := Split(val, ',');
    var parts: seq<string> := [];
    var i := 0;
    while i < |pieces|
      invariant 0 <= i <= |pieces|
      invariant parts == CleanParts(pieces[..i])
    {
      var p := Trim(pieces[i]);
      assert pieces[..i + 1][..i] == pieces[..i];
      if p != "" {
        parts := parts + [p];
      }
      i := i + 1;
    }
    assert pieces[..i] == pieces;
    var base := parts;
    var j := 0;
    while j < |LOOPBACK_HOSTS|
      invariant 0 <= j <= |LOOPBACK_HOSTS|
      invariant parts == AddMissing(base, LOOPBACK_HOSTS[..j])
    {
      var host := LOOPBACK_HOSTS[j];
      assert LOOPBACK_HOSTS[..j + 1][..j] == LOOPBACK_HOSTS[..j];
      if host !in parts {
        parts := parts + [host];
      }
      j := j + 1;
    }
    assert LOOPBACK_HOSTS[..j] == LOOPBACK_HOSTS;
    assert parts == NoProxyParts(val);
    joined := Join(parts, ',');
  }

  // ---------------------------------------------------------------------------
  // Properties of the written value

  /** With distinct hosts, appending one at a time while skipping those already
      present appends exactly the hosts the original parts lack, in order. */
  lemma {:induction false} AddMissingAppends(parts: seq<string>, hosts: seq<string>)
    requires forall a, b :: 0 <= a < b < |hosts| ==> hosts[a] != hosts[b]
    ensures AddMissing(parts, hosts) == parts + MissingHosts(parts, hosts)
  {
    if hosts != [] {
      var init := hosts[..|hosts| - 1];
      var h := hosts[|hosts| - 1];
      AddMissingAppends(parts, init);
      MissingHostsSnoc(parts, init, h);
      MissingHostsFromList(parts, init);
      assert h !in init;
      assert h !in MissingHosts(parts, init);
      assert init + [h] == hosts;
    }
  }

  lemma {:induction false} MissingHostsSnoc(parts: seq<string>, hosts: seq<string>, h: string)
    ensures MissingHosts(parts, hosts + [h]) ==
            MissingHosts(parts, hosts) + (if h in parts then [] else [h])
  {
    if hosts == [] {
      assert [h][1..] == [];
    } else {
      MissingHostsSnoc(parts, hosts[1..], h);
      assert (hosts + [h])[1..] == hosts[1..] + [h];
    }
  }

  lemma {:induction false} MissingHostsFromList(parts: seq<string>, hosts: seq<string>)
    ensures forall x :: x in MissingHosts(parts, hosts) ==> x in hosts && x !in parts
  {
    if hosts != [] {
      MissingHostsFromList(parts, hosts[1..]);
    }
  }

  /** The existing parts come first, trimmed, non-empty and in their original
      order; after them come exactly the loopback hosts that were missing. */
  lemma NoProxyPartsShape(val: string)
    ensures NoProxyParts(val) ==
            CleanParts(Split(val, ',')) + MissingHosts(CleanParts(Split(val, ',')), LOOPBACK_HOSTS)
  {
    AddMissingAppends(CleanParts(Split(val, ',')), LOOPBACK_HOSTS);
  }

  /** Parts that are already trimmed and non-empty survive the clean-up. */
  lemma {:induction false} CleanPartsOfClean(parts: seq<string>)
    requires AllClean(parts)
    ensures CleanParts(parts) == parts
  {
    if parts != [] {
      var init := parts[..|parts| - 1];
      assert AllClean(init) by {
        forall k | 0 <= k < |init| ensures init[k] != "" && Trimmed(init[k]) { assert init[k] == parts[k]; }
      }
      CleanPartsOfClean(init);
      TrimNoSpaceEnds(parts[|parts| - 1]);
      assert init + [parts[|parts| - 1]] == parts;
    }
  }

  /** For the two loopback hosts the missing ones are simply listed. */
  lemma LoopbackMissing(parts: seq<string>)
    ensures MissingHosts(parts, LOOPBACK_HOSTS) ==
      (if "127.0.0.1" in parts then [] else ["127.0.0.1"]) + (if "localhost" in parts then [] else ["localhost"])
    ensures AllClean(MissingHosts(parts, LOOPBACK_HOSTS)) && NoComma(MissingHosts(parts, LOOPBACK_HOSTS))
  {
    var l: seq<string> := ["localhost"];
    assert LOOPBACK_HOSTS[1..] == l && l[1..] == [];
    assert MissingHosts(parts, l) == (if "localhost" in parts then [] else ["localhost"]);
    var m := MissingHosts(parts, LOOPBACK_HOSTS);
    assert Trimmed("127.0.0.1") && Trimmed("localhost");
    assert ',' !in "127.0.0.1" && ',' !in "localhost";
    forall k | 0 <= k < |m| ensures m[k] != "" && Trimmed(m[k]) && ',' !in m[k] {
      assert m[k] == "127.0.0.1" || m[k] == "localhost";
    }
  }

  /** Both loopback hosts are comma parts of the written value. */
  lemma NoProxyHasLoopback(val: string)
    ensures "127.0.0.1" in Split(NoProxyValue(val), ',')
    ensures "localhost" in Split(NoProxyValue(val), ',')
  {
    var clean := CleanParts(Split(val, ','));
    NoProxyPartsShape(val);
    LoopbackMissing(clean);
  }

  /** A host that is already a part is not appended again. */
  lemma NoProxyNoDuplicateHost(val: string, h: string)
    requires h in CleanParts(Split(val, ','))
    ensures NoProxyParts(val) == CleanParts(Split(val, ',')) + MissingHosts(CleanParts(Split(val, ',')), LOOPBACK_HOSTS)
    ensures h !in MissingHosts(CleanParts(Split(val, ',')), LOOPBACK_HOSTS)
  {
    NoProxyPartsShape(val);
    MissingHostsFromList(CleanParts(Split(val, ',')), LOOPBACK_HOSTS);
  }

  /** Running the clean-up on its own output changes nothing further. */
  lemma NoProxyIdempotent(val: string)
    ensures NoProxyValue(NoProxyValue(val)) == NoProxyValue(val)
  {
    var parts := NoProxyParts(val);
    NoProxyHasLoopback(val);
    CleanPartsOfClean(parts);
    AddMissingAppends(parts, LOOPBACK_HOSTS);
    LoopbackMissing(parts);
    assert NoProxyParts(NoProxyValue(val)) == parts + [];
  }

  // ---------------------------------------------------------------------------
  // The environment

  function Lookup(env: map<string, string>, key: string): string {
    if key in env then env[key] else ""
  }

  /** `os.getenv("REMBG_MODEL_PATH", "").strip()`: the configured custom
      background-removal model, "" when none is set. */
  function RembgModelPath(env: map<string, string>): (r: string)
    ensures Trimmed(r)
    ensures "REMBG_MODEL_PATH" !in env ==> r == ""
  {
    Trim(Lookup(env, "REMBG_MODEL_PATH"))
  }

  /** The environment after each key of `keys` in turn has been set to `f`
      of its value before the loop. */
  function Updated(env: map<string, string>, keys: seq<string>, f: string -> string): map<string, string> {
    if keys == [] then env
    else
      var k := keys[|keys| - 1];
      Updated(env, keys[..|keys| - 1], f)[k := f(Lookup(env, k))]
  }

  /** The environment after the outer loop of `_ensure_no_proxy` has handled `keys`. */
  function WithNoProxy(env: map<string, string>, keys: seq<string>): map<string, string> {
    Updated(env, keys, NoProxyValue)
  }

  /** The outer loop written out: the two keys in turn. */
  lemma UpdatedUnfold(env: map<string, string>, f: string -> string)
    ensures Updated(env, NO_PROXY_KEYS, f) ==
      env["NO_PROXY" := f(Lookup(env, "NO_PROXY"))]["no_proxy" := f(Lookup(env, "no_proxy"))]
  {
    var one: seq<string> := ["NO_PROXY"];
    assert NO_PROXY_KEYS[..|NO_PROXY_KEYS| - 1] == one;
    assert one[..|one| - 1] == [];
    assert Updated(env, one, f) == env["NO_PROXY" := f(Lookup(env, "NO_PROXY"))];
  }

  /** Setting the two keys with an idempotent `f` a second time changes nothing. */
  lemma UpdatedIdempotent(env: map<string, string>, f: string -> string)
    requires forall x :: f(f(x)) == f(x)
    ensures Updated(Updated(env, NO_PROXY_KEYS, f), NO_PROXY_KEYS, f) == Updated(env, NO_PROXY_KEYS, f)
  {
    var once := Updated(env, NO_PROXY_KEYS, f);
    UpdatedUnfold(env, f);
    UpdatedUnfold(once, f);
    assert Lookup(once, "NO_PROXY") == f(Lookup(env, "NO_PROXY"));
    assert Lookup(once, "no_proxy") == f(Lookup(env, "no_proxy"));
  }

  /** Each of the two keys gets the value computed from its own previous
      value, and every other key keeps its value. */
  lemma NoProxyKeysIndependent(env: map<string, string>)
    ensures WithNoProxy(env, NO_PROXY_KEYS).Keys == env.Keys + {"NO_PROXY", "no_proxy"}
    ensures WithNoProxy(env, NO_PROXY_KEYS)["NO_PROXY"] == NoProxyValue(Lookup(env, "NO_PROXY"))
    ensures WithNoProxy(env, NO_PROXY_KEYS)["no_proxy"] == NoProxyValue(Lookup(env, "no_proxy"))
    ensures forall k :: k in env && k != "NO_PROXY" && k != "no_proxy" ==>
      WithNoProxy(env, NO_PROXY_KEYS)[k] == env[k]
  {
    UpdatedUnfold(env, NoProxyValue);
  }

  /** Calling `_ensure_no_proxy` twice leaves the same environment as once. */
  lemma EnsureNoProxyIdempotent(env: map<string, string>)
    ensures WithNoProxy(WithNoProxy(env, NO_PROXY_KEYS), NO_PROXY_KEYS) == WithNoProxy(env, NO_PROXY_KEYS)
  {
    forall x ensures NoProxyValue(NoProxyValue(x)) == NoProxyValue(x) {
      NoProxyIdempotent(x);
    }
    UpdatedIdempotent(env, NoProxyValue);
  }

  /** `os.environ`, as far as `_ensure_no_proxy` reads and writes it. */
  class Environment {
    var vars: map<string, string>

    constructor (initial: map<string, string>)
      ensures vars == initial
    {
      vars := initial;
    }

    function Get(key: string): string
      reads this
    {
      Lookup(vars, key)
    }

    method EnsureNoProxy()
      modifies this
      ensures vars == WithNoProxy(old(vars), NO_PROXY_KEYS)
    {
      for k := 0 to |NO_PROXY_KEYS|
        invariant vars == WithNoProxy(old(vars), NO_PROXY_KEYS[..k])
        invariant k < |NO_PROXY_KEYS| ==> Lookup(vars, NO_PROXY_KEYS[k]) == Lookup(old(vars), NO_PROXY_KEYS[k])
      {
        var key := NO_PROXY_KEYS[k];
        var val := Get(key);
        assert val == Lookup(old(vars), key);
        var joined := NoProxyFor(val);
        assert NO_PROXY_KEYS[..k + 1][..k] == NO_PROXY_KEYS[..k];
        vars := vars[key := joined];
        assert NO_PROXY_KEYS[0] != NO_PROXY_KEYS[1];
      }
      assert NO_PROXY_KEYS[..|NO_PROXY_KEYS|] == NO_PROXY_KEYS;
    }
  }
}
