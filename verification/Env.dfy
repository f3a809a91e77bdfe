/** pkg/micantainer/container.go: the environment of the sandbox helper process. */
module Env {
  import opened Wrappers

  /** The name in front of the first '=', if there is one. */
  function KeyOf(kv: string): (key: Option<string>)
    ensures key.Some? ==> |key.value| < |kv| && kv[..|key.value|] == key.value && kv[|key.value|] == '=' && '=' !in key.value
    ensures key.None? ==> '=' !in kv
  {
    if kv == "" then None
    else if kv[0] == '=' then Some("")
    else match KeyOf(kv[1..])
      case None => None
      case Some(rest) => Some([kv[0]] + rest)
  }

  /** Where a key is bound last. */
  function LastIndex(env: seq<string>, key: string): (i: Option<nat>)
    ensures i.Some? ==> i.value < |env| && KeyOf(env[i.value]) == Some(key)
    ensures forall j | 0 <= j < |env| && (i.None? || i.value < j) :: KeyOf(env[j]) != Some(key)
  {
    if env == [] then None
    else if KeyOf(env[|env| - 1]) == Some(key) then Some(|env| - 1)
    else LastIndex(env[..|env| - 1], key)
  }

  /** What a key is bound to: the last binding counts. */
  function Lookup(env: seq<string>, key: string): Option<string> {
    match LastIndex(env, key)
    case None => None
    case Some(i) => Some(env[i])
  }

  /** One override: it replaces the last binding of its key or is added at the end; without '=' it is dropped. */
  function Put(env: seq<string>, kv: string): seq<string> {
    match KeyOf(kv)
    case None => env
    case Some(key) =>
      match LastIndex(env, key)
      case None => env + [kv]
      case Some(i) => env[i := kv]
  }

  function Overlay(base: seq<string>, over: seq<string>): seq<string> {
    if over == [] then base else Put(Overlay(base, over[..|over| - 1]), over[|over| - 1])
  }

  /** The only index that fits is the last one. */
  lemma LastIndexIs(env: seq<string>, key: string, i: Option<nat>)
    requires i.Some? ==> i.value < |env| && KeyOf(env[i.value]) == Some(key)
    requires forall j | 0 <= j < |env| && (i.None? || i.value < j) :: KeyOf(env[j]) != Some(key)
    ensures LastIndex(env, key) == i
  {
    var at := LastIndex(env, key);
    if i.Some? && at.Some? && i.value < at.value {
      assert false;
    }
  }

  lemma PutKeys(env: seq<string>, kv: string)
    ensures var e := Put(env, kv);
      && (forall i | 0 <= i < |env| :: i < |e| && KeyOf(e[i]) == KeyOf(env[i]))
      && (|e| == |env| || (e == env + [kv] && KeyOf(kv).Some? && LastIndex(env, KeyOf(kv).value).None?))
  {
  }

  lemma PutBinds(env: seq<string>, kv: string, key: string)
    ensures |env| <= |Put(env, kv)|
    ensures forall i | 0 <= i < |env| :: KeyOf(Put(env, kv)[i]) == KeyOf(env[i])
    ensures LastIndex(Put(env, kv), key) ==
            if KeyOf(kv) == Some(key) && LastIndex(env, key).None? then Some(|env|) else LastIndex(env, key)
    ensures Lookup(Put(env, kv), key) == if KeyOf(kv) == Some(key) then Some(kv) else Lookup(env, key)
  {
    var at := if KeyOf(kv) == Some(key) && LastIndex(env, key).None? then Some(|env|) else LastIndex(env, key);
    PutKeys(env, kv);
    var e := Put(env, kv);
    forall j | 0 <= j < |e| && (at.None? || at.value < j)
      ensures KeyOf(e[j]) != Some(key)
    {
      assert j < |env| ==> KeyOf(env[j]) != Some(key);
    }
    LastIndexIs(e, key, at);
  }

  /** Merging is map overlay: a key is bound to its last override or else, as before, to its last binding. */
  lemma {:induction false} OverlayLookup(base: seq<string>, over: seq<string>, key: string)
    ensures Lookup(Overlay(base, over), key) == if Lookup(over, key).Some? then Lookup(over, key) else Lookup(base, key)
  {
    if over != [] {
      var n := |over| - 1;
      OverlayLookup(base, over[..n], key);
      PutBinds(Overlay(base, over[..n]), over[n], key);
      LookupLast(over, key);
    }
  }

  lemma LookupLast(env: seq<string>, key: string)
    requires env != []
    ensures var n := |env| - 1;
      Lookup(env, key) == if KeyOf(env[n]) == Some(key) then Some(env[n]) else Lookup(env[..n], key)
  {
    var at := LastIndex(env[..|env| - 1], key);
    if at.Some? {
      assert env[..|env| - 1][at.value] == env[at.value];
    }
  }

  ghost predicate KeepsKeys(base: seq<string>, r: seq<string>) {
    && |base| <= |r|
    && (forall i | 0 <= i < |base| :: KeyOf(r[i]) == KeyOf(base[i]))
    && (forall i | |base| <= i < |r| :: KeyOf(r[i]).Some?)
    && (forall i, j | |base| <= i < |r| && 0 <= j < |r| && i != j :: KeyOf(r[i]) != KeyOf(r[j]))
  }

  /** Entries keep their places and keys; what is added has a key that is bound nowhere else. */
  lemma {:induction false} OverlayKeepsKeys(base: seq<string>, over: seq<string>)
    ensures KeepsKeys(base, Overlay(base, over))
  {
    if over != [] {
      var n := |over| - 1;
      OverlayKeepsKeys(base, over[..n]);
      PutKeepsKeys(base, Overlay(base, over[..n]), over[n]);
    }
  }

  lemma PutKeepsKeys(base: seq<string>, e: seq<string>, kv: string)
    requires KeepsKeys(base, e)
    ensures KeepsKeys(base, Put(e, kv))
  {
    PutKeys(e, kv);
    if |Put(e, kv)| > |e| {
      NewKeyKept(base, e, kv);
    } else {
      SameKeysKept(base, e, Put(e, kv));
    }
  }

  lemma NewKeyKept(base: seq<string>, e: seq<string>, kv: string)
    requires KeepsKeys(base, e) && KeyOf(kv).Some? && LastIndex(e, KeyOf(kv).value).None?
    ensures KeepsKeys(base, e + [kv])
  {
    assert forall j | 0 <= j < |e| :: KeyOf(e[j]) != KeyOf(kv);
  }

  lemma SameKeysKept(base: seq<string>, e: seq<string>, r: seq<string>)
    requires KeepsKeys(base, e) && |r| == |e| && forall i | 0 <= i < |e| :: KeyOf(r[i]) == KeyOf(e[i])
    ensures KeepsKeys(base, r)
  {
  }

  method MergeEnv(base: seq<string>, over: seq<string>) returns (result: seq<string>)
    ensures result == Overlay(base, over)
  {
    result := base;
    var index: map<string, nat> := map[];
    var i := 0;
    while i < |result|
      invariant 0 <= i <= |result| && result == base
      invariant Indexes(index, base[..i])
    {
      assert base[..i + 1][..i] == base[..i];
      var key := KeyOf(result[i]);
      if key.Some? {
        index := index[key.value := i];
      }
      i := i + 1;
    }
    assert base[..i] == base;
    i := 0;
    while i < |over|
      invariant 0 <= i <= |over|
      invariant result == Overlay(base, over[..i]) && Indexes(index, result)
    {
      OverlayNext(base, over, i);
      result, index := PutEnv(result, index, over[i]);
      i := i + 1;
    }
    assert over[..i] == over;
  }

  lemma OverlayNext(base: seq<string>, over: seq<string>, i: nat)
    requires i < |over|
    ensures Overlay(base, over[..i + 1]) == Put(Overlay(base, over[..i]), over[i])
  {
    assert over[..i + 1][..i] == over[..i];
  }

  /** One turn of the second loop. */
  method PutEnv(env: seq<string>, at: map<string, nat>, kv: string) returns (result: seq<string>, index: map<string, nat>)
    requires Indexes(at, env)
    ensures result == Put(env, kv) && Indexes(index, result)
  {
    result, index := env, at;
    IndexesPut(index, result, kv);
    var key := KeyOf(kv);
    if key.Some? {
      if key.value in index {
        result := result[index[key.value] := kv];
      } else {
        index := index[key.value := |result|];
        result := result + [kv];
      }
    }
  }

  ghost predicate Indexes(index: map<string, nat>, env: seq<string>) {
    forall key :: LastIndex(env, key) == if key in index then Some(index[key]) else None
  }

  lemma IndexesPut(index: map<string, nat>, env: seq<string>, kv: string)
    requires Indexes(index, env)
    ensures KeyOf(kv).None? ==> Indexes(index, Put(env, kv))
    ensures KeyOf(kv).Some? && KeyOf(kv).value in index ==>
              Put(env, kv) == env[index[KeyOf(kv).value] := kv] && Indexes(index, Put(env, kv))
    ensures KeyOf(kv).Some? && KeyOf(kv).value !in index ==>
              Put(env, kv) == env + [kv] && Indexes(index[KeyOf(kv).value := |env|], Put(env, kv))
  {
    forall key
      ensures LastIndex(Put(env, kv), key) == AfterPut(env, KeyOf(kv), key)
    {
      PutBinds(env, kv, key);
    }
    IndexesAfter(index, env, KeyOf(kv), Put(env, kv));
  }

  /** Where a key is bound last after an entry with that name has been put. */
  function AfterPut(env: seq<string>, name: Option<string>, key: string): Option<nat> {
    if name == Some(key) && LastIndex(env, key).None? then Some(|env|) else LastIndex(env, key)
  }

  lemma IndexesAfter(index: map<string, nat>, env: seq<string>, name: Option<string>, more: seq<string>)
    requires Indexes(index, env) && forall key :: LastIndex(more, key) == AfterPut(env, name, key)
    ensures name.None? || name.value in index ==> Indexes(index, more)
    ensures name.Some? && name.value !in index ==> Indexes(index[name.value := |env|], more)
  {
  }

  const DEFAULT_PATH: string := "PATH" + "=" + "/usr/local/sbin:/usr/local/bin:/usr/sbin:/usr/bin:/sbin:/bin"

  method EnvHasKey(env: seq<string>, key: string) returns (found: bool)
    requires '=' !in key
    ensures found <==> Lookup(env, key).Some?
  {
    var prefix := key + "=";
    var i := 0;
    while i < |env|
      invariant 0 <= i <= |env|
      invariant forall j | 0 <= j < i :: KeyOf(env[j]) != Some(key)
    {
      PrefixIsKey(env[i], key);
      if prefix <= env[i] {
        return true;
      }
      i := i + 1;
    }
    return false;
  }

  lemma {:induction false} KeyOfPair(key: string, value: string)
    requires '=' !in key
    ensures KeyOf(key + "=" + value) == Some(key)
  {
    var kv := key + "=" + value;
    if key != "" {
      KeyOfPair(key[1..], value);
      assert kv[1..] == key[1..] + "=" + value;
      assert [key[0]] + key[1..] == key;
    }
  }

  lemma PrefixIsKey(kv: string, key: string)
    requires '=' !in key
    ensures key + "=" <= kv <==> KeyOf(kv) == Some(key)
  {
    if key + "=" <= kv {
      KeyOfPair(key, kv[|key| + 1..]);
      assert kv == key + "=" + kv[|key| + 1..];
    }
    if KeyOf(kv) == Some(key) {
      assert kv[..|key| + 1] == key + "=";
    }
  }

  /** The helper always has a PATH. */
  method AssembleHelperEnv(environ: seq<string>, processEnv: Option<seq<string>>) returns (env: seq<string>)
    ensures forall key {:trigger Lookup(env, key)} :: Lookup(env, key) ==
              if processEnv.Some? && Lookup(processEnv.value, key).Some? then Lookup(processEnv.value, key)
              else if Lookup(environ, key).None? && key == "PATH" then Some(DEFAULT_PATH)
              else Lookup(environ, key)
  {
    env := environ;
    if processEnv.Some? && |processEnv.value| > 0 {
      env := MergeEnv(env, processEnv.value);
      forall key
        ensures Lookup(env, key) == if Lookup(processEnv.value, key).Some? then Lookup(processEnv.value, key) else Lookup(environ, key)
      {
        OverlayLookup(environ, processEnv.value, key);
      }
    }
    var found := EnvHasKey(env, "PATH");
    if !found {
      ghost var before := env;
      env := env + [DEFAULT_PATH];
      PrefixIsKey(DEFAULT_PATH, "PATH");
      assert "PATH" + "=" <= DEFAULT_PATH;
      assert env == Put(before, DEFAULT_PATH);
      forall key
        ensures Lookup(env, key) == if key == "PATH" then Some(DEFAULT_PATH) else Lookup(before, key)
      {
        PutBinds(before, DEFAULT_PATH, key);
      }
    }
  }
}
