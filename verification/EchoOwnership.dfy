/** Who holds which buffer of the echo server: the pool or exactly one connection. */
module EchoOwnership {
  import opened Wrappers
  import opened EchoServer

  function Holds(tok: Token): Option<nat> {
    match tok
    case Read(_, buf) => Some(buf)
    case Write(_, buf, _, _) => Some(buf)
    case _ => None
  }

  ghost predicate Holder(tokens: map<nat, Token>, t: nat, b: nat) {
    t in tokens && Holds(tokens[t]) == Some(b)
  }

  /** Of the `count` buffers allocated each is either in the pool, once, or held by one
      token, never both; nothing else is in the pool or held. */
  ghost predicate Ownership(tokens: map<nat, Token>, pool: seq<nat>, count: nat) {
    && (forall i, j :: 0 <= i < j < |pool| ==> pool[i] != pool[j])
    && (forall b <- pool :: b < count)
    && (forall t: nat, b: nat :: Holder(tokens, t, b) ==> b < count && b !in pool)
    && (forall t: nat, u: nat, b: nat :: Holder(tokens, t, b) && Holder(tokens, u, b) ==> t == u)
    && (forall b: nat :: b < count ==> b in pool || exists t: nat :: Holder(tokens, t, b))
  }

  /** A token that changes without touching its buffer, or a new one that has none. */
  lemma KeepBuffer(tokens: map<nat, Token>, pool: seq<nat>, count: nat, t: nat, tok: Token)
    requires Ownership(tokens, pool, count)
    requires Holds(tok) == if t in tokens then Holds(tokens[t]) else None
    ensures Ownership(tokens[t := tok], pool, count)
  {
    var tokens' := tokens[t := tok];
    forall u: nat, b: nat
      ensures Holder(tokens', u, b) <==> Holder(tokens, u, b)
    {
    }
    forall b: nat | b < count && b !in pool
      ensures exists u: nat :: Holder(tokens', u, b)
    {
      var u: nat :| Holder(tokens, u, b);
      assert Holder(tokens', u, b);
    }
  }

  lemma TakeFromPool(tokens: map<nat, Token>, pool: seq<nat>, count: nat, t: nat, tok: Token)
    requires Ownership(tokens, pool, count) && pool != []
    requires t in tokens && Holds(tokens[t]).None? && Holds(tok) == Some(pool[|pool| - 1])
    ensures Ownership(tokens[t := tok], pool[..|pool| - 1], count)
  {
    var tokens', last, rest := tokens[t := tok], pool[|pool| - 1], pool[..|pool| - 1];
    assert last in pool && last < count;
    assert forall i :: 0 <= i < |rest| ==> rest[i] == pool[i] != last;
    assert forall b :: b in pool <==> b in rest || b == last by {
      assert pool == rest + [last];
    }
    forall u: nat, b: nat
      ensures Holder(tokens', u, b) <==> Holder(tokens, u, b) || (u == t && b == last)
    {
    }
    forall b: nat | b < count && b !in rest
      ensures exists u: nat :: Holder(tokens', u, b)
    {
      if b == last {
        assert Holder(tokens', t, b);
      } else {
        var u: nat :| Holder(tokens, u, b);
        assert Holder(tokens', u, b);
      }
    }
  }

  lemma TakeNew(tokens: map<nat, Token>, pool: seq<nat>, count: nat, t: nat, tok: Token)
    requires Ownership(tokens, pool, count)
    requires t in tokens && Holds(tokens[t]).None? && Holds(tok) == Some(count)
    ensures Ownership(tokens[t := tok], pool, count + 1)
  {
    var tokens' := tokens[t := tok];
    forall u: nat, b: nat
      ensures Holder(tokens', u, b) <==> Holder(tokens, u, b) || (u == t && b == count)
    {
    }
    forall b: nat | b < count + 1 && b !in pool
      ensures exists u: nat :: Holder(tokens', u, b)
    {
      if b == count {
        assert Holder(tokens', t, b);
      } else {
        var u: nat :| Holder(tokens, u, b);
        assert Holder(tokens', u, b);
      }
    }
  }

  lemma GiveBack(tokens: map<nat, Token>, pool: seq<nat>, count: nat, t: nat, tokens': map<nat, Token>)
    requires Ownership(tokens, pool, count) && t in tokens && Holds(tokens[t]).Some?
    requires forall u: nat, b: nat :: Holder(tokens', u, b) <==> Holder(tokens, u, b) && u != t
    ensures Ownership(tokens', pool + [Holds(tokens[t]).value], count)
  {
    var freed := Holds(tokens[t]).value;
    assert Holder(tokens, t, freed);
    forall b: nat | b < count && b !in pool + [freed]
      ensures exists u: nat :: Holder(tokens', u, b)
    {
      var u: nat :| Holder(tokens, u, b);
      assert Holder(tokens', u, b);
    }
  }

  /** A connection that ends gives its buffer back. */
  lemma GiveBackOnRemoval(tokens: map<nat, Token>, pool: seq<nat>, count: nat, t: nat)
    requires Ownership(tokens, pool, count) && t in tokens && Holds(tokens[t]).Some?
    ensures Ownership(tokens - {t}, pool + [Holds(tokens[t]).value], count)
  {
    GiveBack(tokens, pool, count, t, tokens - {t});
  }

  /** So does one that goes back to waiting. */
  lemma GiveBackOnChange(tokens: map<nat, Token>, pool: seq<nat>, count: nat, t: nat, tok: Token)
    requires Ownership(tokens, pool, count) && t in tokens && Holds(tokens[t]).Some? && Holds(tok).None?
    ensures Ownership(tokens[t := tok], pool + [Holds(tokens[t]).value], count)
  {
    GiveBack(tokens, pool, count, t, tokens[t := tok]);
  }
}
