/** Spread group names of scopes, and the bounded cache of them. */
module GroupNames {
  import opened Wire

  /** Size of a group name buffer of the Spread library, terminator included. */
  const MAX_GROUP_NAME := 32

  /** The hexadecimal MD5 digest of a scope's string form; nothing is assumed about it. */
  type Hash = Scope -> string

  function ScopeToGroup(md5: Hash, scope: Scope): string {
    md5(scope)[..Min(MAX_GROUP_NAME - 1, |md5(scope)|)]
  }

  /** The name is the longest prefix of the digest that a message group can have, 31 characters at most. */
  lemma ScopeToGroupExact(md5: Hash, scope: Scope)
    ensures ScopeToGroup(md5, scope) <= md5(scope)
    ensures |ScopeToGroup(md5, scope)| == if |md5(scope)| <= 31 then |md5(scope)| else 31
    ensures forall g: string :: NameFits(g) <==> |g| <= 31
  {
  }

  /** `Scope::superScopes(true)`: from the root scope to the scope itself. */
  function SuperScopes(scope: Scope): seq<Scope> {
    seq(|scope| + 1, i requires 0 <= i <= |scope| => scope[..i])
  }

  /** The uncached computation. */
  function Names(md5: Hash, scope: Scope): seq<string> {
    seq(|scope| + 1, i requires 0 <= i <= |scope| => ScopeToGroup(md5, scope[..i]))
  }

  /** The check of `SpreadMessage::addGroup`. */
  predicate NameFits(group: string) {
    |group| <= MAX_GROUP_NAME - 1
  }

  /** The names of a scope are those of its super-scopes and itself, and all of them fit. */
  lemma NamesExact(md5: Hash, t: Scope, g: string)
    ensures g in Names(md5, t) <==> exists s :: s <= t && g == ScopeToGroup(md5, s)
    ensures g in Names(md5, t) ==> NameFits(g)
  {
    if s :| s <= t && g == ScopeToGroup(md5, s) {
      assert t[..|s|] == s;
      assert Names(md5, t)[|s|] == g;
    }
    if g in Names(md5, t) {
      var i :| 0 <= i <= |t| && Names(md5, t)[i] == g;
      assert t[..i] <= t;
    }
  }

  lemma NamesGrow(md5: Hash, scope: Scope, i: nat)
    requires i <= |scope|
    ensures Names(md5, scope)[..i + 1] == Names(md5, scope)[..i] + [ScopeToGroup(md5, SuperScopes(scope)[i])]
  {
  }

  class GroupNameCache {
    const md5: Hash
    var cache: map<Scope, seq<string>>

    ghost predicate Valid()
      reads this
    {
      && (forall t | t in cache :: cache[t] == Names(md5, t))
      && |cache| <= 301
    }

    constructor (md5: Hash)
      ensures Valid() && this.md5 == md5 && cache == map[]
    {
      this.md5 := md5;
      cache := map[];
    }

    /** Looks the names up; on a miss, flushes a full cache and fills in a new entry in place. */
    method ScopeToGroups(scope: Scope) returns (groups: seq<string>)
      requires Valid()
      modifies this
      ensures Valid()
      ensures groups == Names(md5, scope)
      ensures cache == if scope in old(cache) then old(cache)
                       else (if |old(cache)| > 300 then map[] else old(cache))[scope := groups]
    {
      if scope in cache {
        return cache[scope];
      }
      if |cache| > 300 {
        cache := map[];
      }
      Fill(scope);
      return cache[scope];
    }

    /** Makes an entry and appends the names of the super-scopes to it. */
    method Fill(scope: Scope)
      modifies this
      ensures cache == old(cache)[scope := Names(md5, scope)]
    {
      var scopes := SuperScopes(scope);
      cache := cache[scope := []];
      for i := 0 to |scopes|
        invariant cache == old(cache)[scope := Names(md5, scope)[..i]]
      {
        NamesGrow(md5, scope, i);
        cache := cache[scope := cache[scope] + [ScopeToGroup(md5, scopes[i])]];
      }
      assert Names(md5, scope)[..|scopes|] == Names(md5, scope);
    }
  }
}
