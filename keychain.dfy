/**
 * KeychainHelper (iOS): keychain accounts scoped by an optional prefix, and `clear`,
 * which deletes the scoped "token" and "session" items.
 */
module Keychain {
  import opened Wrappers
  import opened Text

  /** `toAppScopeKey`: a missing or empty scope leaves the key alone; otherwise "scope_key". */
  function ToAppScopeKey(key: string, scope: Option<string>): (r: string)
    ensures scope.None? || scope == Some("") ==> r == key
    ensures scope.Some? && scope.value != "" ==> r == scope.value + "_" + key
    ensures EndsWith(r, key)
  {
    if scope.None? || scope.value == "" then
      assert key[|key| - |key|..] == key;
      key
    else
      assert (scope.value + "_" + key)[|scope.value + "_" + key| - |key|..] == key;
      scope.value + "_" + key
  }

  /** Within one scope, distinct keys stay distinct. */
  lemma ToAppScopeKeyInjective(a: string, b: string, scope: Option<string>)
    requires ToAppScopeKey(a, scope) == ToAppScopeKey(b, scope)
    ensures a == b
  {
    if scope.Some? && scope.value != "" {
      var p := scope.value + "_";
      assert ToAppScopeKey(a, scope)[|p|..] == a;
      assert ToAppScopeKey(b, scope)[|p|..] == b;
    }
  }

  /** The accounts `clear` deletes, in order. */
  function ClearedKeys(scope: Option<string>): (r: seq<string>)
    ensures |r| == 2 && r[0] != r[1]
    ensures r[0] == ToAppScopeKey("token", scope) && r[1] == ToAppScopeKey("session", scope)
  {
    TokenAndSessionDiffer(scope);
    [ToAppScopeKey("token", scope), ToAppScopeKey("session", scope)]
  }

  /** In every scope the token and the session are separate items. */
  lemma TokenAndSessionDiffer(scope: Option<string>)
    ensures ToAppScopeKey("token", scope) != ToAppScopeKey("session", scope)
  {
    if ToAppScopeKey("token", scope) == ToAppScopeKey("session", scope) {
      ToAppScopeKeyInjective("token", "session", scope);
      assert false;
    }
  }

  /** The generic-password items of the keychain, by account. */
  class Keychain {
    var accounts: set<string>

    constructor (accounts: set<string>)
      ensures this.accounts == accounts
    {
      this.accounts := accounts;
    }

    /** `deleteKeychainItem`: the item goes if present; a failure status is ignored. */
    method DeleteKeychainItem(key: string)
      modifies this
      ensures accounts == old(accounts) - {key}
    {
      accounts := accounts - {key};
    }

    /** `clear(scopeKey:)`: exactly the scoped token and session go, every other item stays. */
    method Clear(scopeKey: Option<string>)
      modifies this
      ensures accounts == old(accounts) - {ToAppScopeKey("token", scopeKey), ToAppScopeKey("session", scopeKey)}
    {
      var keys := ClearedKeys(scopeKey);
      for i := 0 to |keys|
        invariant accounts == old(accounts) - set j | 0 <= j < i :: keys[j]
      {
        DeleteKeychainItem(keys[i]);
      }
      assert (set j | 0 <= j < 2 :: keys[j]) == {keys[0], keys[1]};
    }
  }
}
