/**
  The namespaced key/value cache over the user's session. The session is a
  map from key to text; everything the helper stores lives under keys that
  begin with `CachePrefix`, and the rest of the session belongs to the host
  application.
 */
module SessionCache {
  import opened Optional
  import opened Text

  /** One user's session store: key to stored text. */
  type Session = map<string, string>

  /** The namespace of every key the helper writes. */
  const CachePrefix: string := "WindowsAzureAdCache#"

  /** The session key for a helper-level name. */
  function CacheKey(name: string): (k: string)
    ensures StartsWith(k, CachePrefix)
    ensures k[|CachePrefix|..] == name
  {
    StartsWithAppend(CachePrefix, name);
    CachePrefix + name
  }

  /** `s` and `s'` hold the same entry (or both none) under `k`. */
  predicate Agree(s: Session, s': Session, k: string) {
    (k in s <==> k in s') && (k in s ==> s[k] == s'[k])
  }

  /** Every key outside `touched` is the same in `s` and `s'`. */
  ghost predicate Untouched(s: Session, s': Session, touched: set<string>) {
    forall k {:trigger Agree(s, s', k)} :: k !in touched ==> Agree(s, s', k)
  }

  /** Stores `value` under the namespaced `name`, replacing any previous value. */
  function SaveInCache(s: Session, name: string, value: string): (s': Session)
    ensures CacheKey(name) in s' && s'[CacheKey(name)] == value
    ensures Untouched(s, s', {CacheKey(name)})
  {
    s[CacheKey(name) := value]
  }

  /** The value stored under the namespaced `name`, if any. */
  function GetFromCache(s: Session, name: string): (r: Option<string>)
    ensures r.Some? <==> CacheKey(name) in s
    ensures r.Some? ==> r.value == s[CacheKey(name)]
  {
    if CacheKey(name) in s then Some(s[CacheKey(name)]) else None
  }

  /** Drops the namespaced `name`; a no-op when it is absent. */
  function RemoveFromCache(s: Session, name: string): (s': Session)
    ensures CacheKey(name) !in s'
    ensures Untouched(s, s', {CacheKey(name)})
  {
    s - {CacheKey(name)}
  }

  /**
    Drops every key in the helper's namespace and keeps the host
    application's own keys with their values.
   */
  function RemoveAllFromCache(s: Session): (s': Session)
    ensures forall k :: k in s' <==> k in s && !StartsWith(k, CachePrefix)
    ensures forall k :: k in s' ==> s'[k] == s[k]
  {
    map k | k in s && !StartsWith(k, CachePrefix) :: s[k]
  }

  /** Reading a name right after saving it gives the saved value. */
  lemma GetAfterSave(s: Session, name: string, other: string, value: string)
    ensures GetFromCache(SaveInCache(s, name, value), name) == Some(value)
    ensures other != name ==> GetFromCache(SaveInCache(s, name, value), other) == GetFromCache(s, other)
  {
    if other != name {
      var k := CacheKey(other);
      assert k[|CachePrefix|..] != CacheKey(name)[|CachePrefix|..];
      assert Agree(s, SaveInCache(s, name, value), k);
    }
  }

  /** Reading a name right after removing it finds nothing; other names are unaffected. */
  lemma GetAfterRemove(s: Session, name: string, other: string)
    ensures GetFromCache(RemoveFromCache(s, name), name) == None
    ensures other != name ==> GetFromCache(RemoveFromCache(s, name), other) == GetFromCache(s, other)
  {
    if other != name {
      var k := CacheKey(other);
      assert k[|CachePrefix|..] != CacheKey(name)[|CachePrefix|..];
      assert Agree(s, RemoveFromCache(s, name), k);
    }
  }

  /**
    Clearing the namespace forgets every helper write: clearing after a save
    or a removal is the same as clearing before it, and afterwards no name
    can be read back.
   */
  lemma RemoveAllForgetsHelperWrites(s: Session, name: string, value: string)
    ensures RemoveAllFromCache(SaveInCache(s, name, value)) == RemoveAllFromCache(s)
    ensures RemoveAllFromCache(RemoveFromCache(s, name)) == RemoveAllFromCache(s)
    ensures GetFromCache(RemoveAllFromCache(s), name) == None
  {
    var k := CacheKey(name);
    var a := RemoveAllFromCache(SaveInCache(s, name, value));
    var b := RemoveAllFromCache(RemoveFromCache(s, name));
    var c := RemoveAllFromCache(s);
    forall j | j != k
      ensures Agree(s, SaveInCache(s, name, value), j) && Agree(s, RemoveFromCache(s, name), j)
    {
      assert Agree(s, SaveInCache(s, name, value), j);
      assert Agree(s, RemoveFromCache(s, name), j);
    }
    assert a.Keys == c.Keys;
    assert b.Keys == c.Keys;
  }

  /** Clearing twice is clearing once. */
  lemma RemoveAllIdempotent(s: Session)
    ensures RemoveAllFromCache(RemoveAllFromCache(s)) == RemoveAllFromCache(s)
  {
    var c := RemoveAllFromCache(s);
    assert RemoveAllFromCache(c).Keys == c.Keys;
  }
}
