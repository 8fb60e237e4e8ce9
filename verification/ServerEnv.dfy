/** `server.env` in a backup: host keys stay with the host. */
module ServerEnv {
  import opened Wrappers
  import opened Text

  type Env = map<string, string>

  const SERVER_ADDR := "SERVER_ADDR"
  const HOST_KEYS: set<string> := {SERVER_ADDR, "SECURITY_AUDIT_LAST_RUN", "MANAGER_PYTHON"}

  function Get(env: Env, key: string): string {
    if key in env then env[key] else ""
  }

  /** `portable_server_env_values`: what goes into an archive. */
  function Portable(env: Env): Env {
    env - HOST_KEYS
  }

  /** What the current host says about one of its keys. */
  function HostValue(current: Env, osAddr: string, key: string): string {
    Trim(if key == SERVER_ADDR then Or(Get(current, key), osAddr) else Get(current, key))
  }

  /** `merged_restored_server_env`. */
  method MergedRestoredServerEnv(archive: Env, current: Env, osAddr: string) returns (merged: Env)
    ensures merged == Merge(archive, current, osAddr)
  {
    var addr := HostValue(current, osAddr, SERVER_ADDR);
    merged := if addr != "" then archive[SERVER_ADDR := addr] else archive - {SERVER_ADDR};
    merged := OverlayHostKeys(merged, current, HOST_KEYS - {SERVER_ADDR});
    forall k ensures At(merged, k) == At(Merge(archive, current, osAddr), k) {
      assert k in HOST_KEYS - {SERVER_ADDR} <==> k in HOST_KEYS && k != SERVER_ADDR;
    }
    AtExtensional(merged, Merge(archive, current, osAddr));
  }

  /** The loop over the host keys other than the address. */
  method OverlayHostKeys(env: Env, current: Env, keys: set<string>) returns (merged: Env)
    ensures forall k :: At(merged, k) == if k in keys then Nonblank(Trim(Get(current, k))) else At(env, k)
  {
    merged := env;
    var remaining := keys;
    ghost var done := {};
    while remaining != {}
      invariant done !! remaining && done + remaining == keys
      invariant forall k :: At(merged, k) == if k in done then Nonblank(Trim(Get(current, k))) else At(env, k)
      decreases remaining
    {
      var key :| key in remaining;
      var value := Trim(Get(current, key));
      merged := if value != "" then merged[key := value] else merged - {key};
      remaining, done := remaining - {key}, done + {key};
    }
    assert done == keys;
  }

  /** A blank host value counts as none. */
  function Nonblank(value: string): Option<string> {
    if value == "" then None else Some(value)
  }

  function HostLook(current: Env, osAddr: string, key: string): Option<string> {
    Nonblank(HostValue(current, osAddr, key))
  }

  /** Host keys from the host, everything else from the archive. */
  function Merge(archive: Env, current: Env, osAddr: string): (merged: Env)
    ensures forall k :: At(merged, k) == if k in HOST_KEYS then HostLook(current, osAddr, k) else At(archive, k)
  {
    map k | k in archive.Keys + HOST_KEYS && (k in HOST_KEYS ==> HostLook(current, osAddr, k).Some?) ::
      if k in HOST_KEYS then HostLook(current, osAddr, k).value else archive[k]
  }

  lemma RestoredHost(original: Env, archive: Env, osAddr: string, k: string)
    requires k in HOST_KEYS
    ensures HostLook(Merge(archive, original, osAddr), osAddr, k)
         == if k == SERVER_ADDR && HostValue(original, osAddr, k) == "" && Trim(osAddr) != "" then Some(Trim(osAddr))
            else HostLook(original, osAddr, k)
  {
    assert At(Merge(archive, original, osAddr), k) == HostLook(original, osAddr, k);
    TrimIdempotent(Get(original, k));
    TrimIdempotent(osAddr);
  }

  /** A restored file, rolled back with the portable part of the original, is the original as far as one merge can
      tell; only a blank SERVER_ADDR in the file next to one in the process environment tells them apart. */
  lemma RollbackForgetsArchive(original: Env, archive: Env, osAddr: string)
    ensures Merge(Portable(original), Merge(archive, original, osAddr), osAddr) == Merge(Portable(original), original, osAddr) <==>
              !(Get(original, SERVER_ADDR) != "" && Trim(Get(original, SERVER_ADDR)) == "" && Trim(osAddr) != "")
  {
    var restored := Merge(archive, original, osAddr);
    var back, direct := Merge(Portable(original), restored, osAddr), Merge(Portable(original), original, osAddr);
    forall k | k in HOST_KEYS ensures HostLook(restored, osAddr, k) ==
      if k == SERVER_ADDR && HostValue(original, osAddr, k) == "" && Trim(osAddr) != "" then Some(Trim(osAddr))
      else HostLook(original, osAddr, k)
    {
      RestoredHost(original, archive, osAddr, k);
    }
    if back == direct {
      assert At(back, SERVER_ADDR) == At(direct, SERVER_ADDR);
    } else if forall k :: At(back, k) == At(direct, k) {
      AtExtensional(back, direct);
    }
  }

  /** Host values that survive: present ones are trimmed and not blank. */
  predicate CleanHostKeys(env: Env) {
    forall k | k in HOST_KEYS && k in env :: env[k] != "" && Trim(env[k]) == env[k]
  }

  lemma PortableLook(env: Env, k: string)
    requires k !in HOST_KEYS
    ensures At(Portable(env), k) == At(env, k)
  {}

  lemma DirectMerge(original: Env)
    ensures Merge(Portable(original), original, "") == original <==> CleanHostKeys(original)
  {
    var direct := Merge(Portable(original), original, "");
    if direct == original {
      forall k | k in HOST_KEYS && k in original ensures original[k] != "" && Trim(original[k]) == original[k] {
        assert At(direct, k) == Some(original[k]);
      }
    }
    if CleanHostKeys(original) {
      forall k ensures At(direct, k) == At(original, k) {
        if k !in HOST_KEYS {
          PortableLook(original, k);
        }
      }
      AtExtensional(direct, original);
    }
  }

  /** Wherever a restore fails, rolling back gives the original file exactly when its host keys are clean. */
  lemma RollbackRestoresEnv(original: Env, archive: Env)
    ensures Merge(Portable(original), Merge(archive, original, ""), "") == original <==> CleanHostKeys(original)
    ensures Merge(Portable(original), original, "") == original <==> CleanHostKeys(original)
  {
    assert Trim("") == "";
    RollbackForgetsArchive(original, archive, "");
    DirectMerge(original);
  }

  /** Whatever an archive claims about a host key, the host's own value wins. */
  lemma HostWins(archive: Env, other: Env, current: Env, osAddr: string, key: string)
    requires key in HOST_KEYS
    ensures At(Merge(archive, current, osAddr), key) == At(Merge(other, current, osAddr), key)
  {}
}
