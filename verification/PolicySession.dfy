/** A session with the Windows filtering engine, as its two clients may use it.

    Any call may fail, and a failed call inside a transaction may have left anything there.
    What is relied on: a failed `Begin` opens nothing, a successful `Abort` puts back what
    was there before `Begin`, and closing a dynamic session removes all of its policies. */
module PolicySession {
  type Key = nat
  datatype Target = Blocked | Luid(luid: nat)
  datatype Policy = Policy(path: string, family: nat, target: Target)

  class Session {
    var committed: map<Key, Policy>
    var pending: map<Key, Policy>
    var open: bool
    var closed: bool
    var before: map<Key, Policy>
    /** How many calls have failed, for stating that a client fails for no other reason. */
    ghost var failures: nat

    /** Between calls of its clients: no transaction is open. */
    ghost predicate Idle()
      reads this
    {
      !open && !closed
    }

    constructor ()
      ensures Idle() && committed == map[]
    {
      committed, pending, before := map[], map[], map[];
      open, closed, failures := false, false, 0;
    }

    ghost predicate Counted(ok: bool, was: nat)
      reads this
    {
      failures == if ok then was else was + 1
    }

    method Begin() returns (ok: bool)
      requires Idle()
      modifies this
      ensures committed == old(committed) && before == committed
      ensures ok ==> open && !closed && pending == committed
      ensures !ok ==> Idle()
      ensures Counted(ok, old(failures))
    {
      ok := *;
      failures := if ok then failures else failures + 1;
      before := committed;
      if ok { open, pending := true, committed; }
    }

    method Add(policy: Policy) returns (ok: bool, key: Key)
      requires open && !closed
      modifies `pending, `failures
      ensures ok ==> key !in old(pending) && key !in committed && pending == old(pending)[key := policy]
      ensures Counted(ok, old(failures))
    {
      ok := *;
      failures := if ok then failures else failures + 1;
      FreshKeyExists(pending.Keys + committed.Keys);
      key :| key !in pending.Keys + committed.Keys;
      if ok { pending := pending[key := policy]; } else { pending := *; }
    }

    method Delete(key: Key) returns (ok: bool)
      requires open && !closed
      modifies `pending, `failures
      ensures ok ==> pending == old(pending) - {key}
      ensures Counted(ok, old(failures))
    {
      ok := *;
      failures := if ok then failures else failures + 1;
      if ok { pending := pending - {key}; } else { pending := *; }
    }

    method Commit() returns (ok: bool)
      requires open && !closed
      modifies this
      ensures before == old(before) && !closed
      ensures ok ==> !open && committed == old(pending)
      ensures !ok ==> open
      ensures Counted(ok, old(failures))
    {
      ok := *;
      failures := if ok then failures else failures + 1;
      if ok { committed, open := pending, false; } else { committed := *; }
    }

    method Abort() returns (ok: bool)
      requires open && !closed
      modifies this
      ensures before == old(before) && !closed
      ensures ok ==> !open && committed == before
      ensures Counted(ok, old(failures))
    {
      ok := *;
      failures := if ok then failures else failures + 1;
      open := !ok;
      if ok { committed := before; } else { committed := *; }
    }

    /** `Dispose`: the dynamic session ends with its handle. */
    method Dispose()
      modifies this
      ensures closed && committed == map[] && failures == old(failures)
    {
      committed, closed := map[], true;
    }

    method Close() returns (ok: bool)
      modifies this
      ensures closed
      ensures ok ==> committed == map[]
      ensures Counted(ok, old(failures))
    {
      ok := *;
      failures := if ok then failures else failures + 1;
      closed := true;
      if ok { committed := map[]; }
    }
  }

  ghost function Above(keys: set<Key>): (bound: nat)
    ensures forall k | k in keys :: k < bound
  {
    if keys == {} then 0
    else
      var k :| k in keys;
      var rest := Above(keys - {k});
      assert forall j | j in keys && j != k :: j in keys - {k};
      if k < rest then rest else k + 1
  }

  lemma FreshKeyExists(keys: set<Key>)
    ensures exists k: Key :: k !in keys
  {
    assert Above(keys) !in keys;
  }
}
