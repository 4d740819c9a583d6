/** The shape of a lineage: one parent chain whose tip alone is unused. */
module SessionChains {
  import opened Prelude
  import opened Ids
  import opened SessionTables

  /** `c` lists exactly the family's tokens, each once. */
  ghost predicate Lists(t: Tables, family: string, c: seq<Hash>) {
    && (forall i | 0 <= i < |c| :: c[i] in t.tokens && t.tokens[c[i]].family == family)
    && (forall h | h in t.tokens && t.tokens[h].family == family :: h in c)
    && (forall i, j | 0 <= i < j < |c| :: c[i] != c[j])
  }

  /** Root first: each token is the parent of the next, and all are redeemed but the last. */
  ghost predicate Linked(t: Tables, c: seq<Hash>)
    requires forall i | 0 <= i < |c| :: c[i] in t.tokens
  {
    && c != []
    && t.tokens[c[0]].parent == None
    && (forall i | 0 < i < |c| :: t.tokens[c[i]].parent == Some(t.tokens[c[i - 1]].id))
    && (forall i | 0 <= i < |c| :: t.tokens[c[i]].usedAt.Some? <==> i < |c| - 1)
  }

  ghost predicate IsChain(t: Tables, family: string, c: seq<Hash>) {
    Lists(t, family, c) && Linked(t, c)
  }

  /** Every family is one chain; every token belongs to a family and carries its own identifier. */
  ghost predicate Chained(t: Tables) {
    && (forall h | h in t.tokens :: t.tokens[h].family in t.families)
    && (forall g, h | g in t.tokens && h in t.tokens && t.tokens[g].id == t.tokens[h].id :: g == h)
    && (forall f | f in t.families :: HasChain(t, f))
  }

  ghost predicate HasChain(t: Tables, family: string) { exists c :: IsChain(t, family, c) }

  lemma ChainOf(t: Tables, family: string) returns (c: seq<Hash>)
    requires HasChain(t, family)
    ensures IsChain(t, family, c)
  {
    c :| IsChain(t, family, c);
  }

  /** In a chain the unused token is the tip, and only the tip has no successor. */
  lemma OnlyTipUnused(t: Tables, family: string, c: seq<Hash>, h: Hash)
    requires IsChain(t, family, c)
    requires h in t.tokens && t.tokens[h].family == family && t.tokens[h].usedAt.None?
    ensures h == c[|c| - 1]
  {
    var i :| 0 <= i < |c| && c[i] == h;
  }

  /** `used_at` and the one-successor index tell the same story about every token. */
  lemma UsedIffSucceeded(t: Tables, h: Hash)
    requires Chained(t) && h in t.tokens
    ensures t.tokens[h].usedAt.Some? <==> HasSuccessor(t, t.tokens[h].id)
  {
    hide HasChain;
    var family, id := t.tokens[h].family, t.tokens[h].id;
    var c := ChainOf(t, family);
    var i :| 0 <= i < |c| && c[i] == h;
    if i < |c| - 1 {
      assert t.tokens[c[i + 1]].parent == Some(id);
    }
    if HasSuccessor(t, id) {
      var g :| g in t.tokens && t.tokens[g].parent == Some(id);
      ParentRedeemed(t, g, h);
    }
  }

  lemma ParentRedeemed(t: Tables, child: Hash, h: Hash)
    requires Chained(t) && child in t.tokens && h in t.tokens && t.tokens[child].parent == Some(t.tokens[h].id)
    ensures t.tokens[h].usedAt.Some? && t.tokens[h].family == t.tokens[child].family
  {
    hide HasChain;
    var family := t.tokens[child].family;
    var c := ChainOf(t, family);
    var j :| 0 <= j < |c| && c[j] == child;
    assert j > 0 && t.tokens[c[j - 1]].id == t.tokens[h].id;
  }

  /** Dropping the guard on the update changes no redemption: the index alone decides the same. */
  lemma IndexSuffices(t: Tables, req: RotateRequest, startedAt: Time)
    requires Chained(t)
    ensures Commit(t, req, startedAt, true).Won? <==> Commit(t, req, startedAt, false).Won?
    ensures Commit(t, req, startedAt, true).Won? ==> Commit(t, req, startedAt, true) == Commit(t, req, startedAt, false)
  {
    if req.presented in t.tokens {
      UsedIffSucceeded(t, req.presented);
    }
  }

  /** `after` holds the old rows, perhaps newly redeemed, and one new row. */
  ghost predicate Extends(t: Tables, after: Tables, added: Hash) {
    && added !in t.tokens && after.tokens.Keys == t.tokens.Keys + {added}
    && (forall h | h in t.tokens :: after.tokens[h].(usedAt := t.tokens[h].usedAt) == t.tokens[h])
    && (forall h | h in t.tokens :: after.tokens[h].id != after.tokens[added].id)
  }

  lemma ChainKept(t: Tables, after: Tables, added: Hash, family: string, c: seq<Hash>)
    requires Extends(t, after, added) && IsChain(t, family, c) && after.tokens[added].family != family
    requires forall i | 0 <= i < |c| :: after.tokens[c[i]].usedAt == t.tokens[c[i]].usedAt
    ensures IsChain(after, family, c)
  {
    forall h | h in after.tokens && after.tokens[h].family == family ensures h in c {
      assert h in t.tokens && t.tokens[h].family == family;
    }
  }

  lemma ListGrown(t: Tables, after: Tables, added: Hash, family: string, c: seq<Hash>)
    requires Extends(t, after, added) && Lists(t, family, c) && after.tokens[added].family == family
    ensures Lists(after, family, c + [added])
  {
    var d := c + [added];
    assert d[|c|] == added;
    forall h | h in after.tokens && after.tokens[h].family == family ensures h in d {
      assert h == added || (h in t.tokens && t.tokens[h].family == family && h in c);
    }
  }

  lemma LinksGrown(t: Tables, after: Tables, added: Hash, c: seq<Hash>)
    requires Extends(t, after, added) && (forall i | 0 <= i < |c| :: c[i] in t.tokens) && Linked(t, c)
    requires after.tokens[added].parent == Some(t.tokens[c[|c| - 1]].id) && after.tokens[added].usedAt.None?
    requires after.tokens[c[|c| - 1]].usedAt.Some?
    requires forall i | 0 <= i < |c| - 1 :: after.tokens[c[i]].usedAt == t.tokens[c[i]].usedAt
    ensures forall i | 0 <= i < |c| + 1 :: (c + [added])[i] in after.tokens
    ensures Linked(after, c + [added])
  {
    var d := c + [added];
    assert d[|c|] == added && forall i | 0 <= i < |c| :: d[i] == c[i];
    forall i | 0 < i < |d| ensures after.tokens[d[i]].parent == Some(after.tokens[d[i - 1]].id) {
      assert after.tokens[d[i - 1]].id == t.tokens[c[i - 1]].id;
    }
  }

  lemma ChainGrown(t: Tables, after: Tables, added: Hash, family: string, c: seq<Hash>)
    requires Extends(t, after, added) && IsChain(t, family, c) && after.tokens[added].family == family
    requires after.tokens[added].parent == Some(t.tokens[c[|c| - 1]].id) && after.tokens[added].usedAt.None?
    requires after.tokens[c[|c| - 1]].usedAt.Some?
    requires forall i | 0 <= i < |c| - 1 :: after.tokens[c[i]].usedAt == t.tokens[c[i]].usedAt
    ensures IsChain(after, family, c + [added])
  {
    ListGrown(t, after, added, family, c);
    LinksGrown(t, after, added, c);
    hide Lists, Linked;
  }

  lemma UniqueIdentifiers(t: Tables, after: Tables, added: Hash)
    requires Extends(t, after, added)
    requires forall g, h | g in t.tokens && h in t.tokens && t.tokens[g].id == t.tokens[h].id :: g == h
    ensures forall g, h | g in after.tokens && h in after.tokens && after.tokens[g].id == after.tokens[h].id :: g == h
  {
    forall g, h | g in after.tokens && h in after.tokens && after.tokens[g].id == after.tokens[h].id ensures g == h {
      if g in t.tokens && h in t.tokens {
        assert t.tokens[g].id == t.tokens[h].id;
      }
    }
  }

  lemma RedeemedExtends(t: Tables, req: RotateRequest, startedAt: Time)
    requires req.presented in t.tokens && IndexesAdmit(t, req, t.tokens[req.presented].id)
    ensures Extends(t, Redeemed(t, req, t.tokens[req.presented], startedAt), req.successorHash)
  {
    var token := t.tokens[req.presented];
    var after := Redeemed(t, req, token, startedAt);
    assert after.tokens.Keys == t.tokens.Keys + {req.successorHash};
  }

  /** A redemption extends its family's chain by one and touches no other. */
  lemma RedeemedChain(t: Tables, req: RotateRequest, startedAt: Time, family: string, c: seq<Hash>)
    requires IsChain(t, family, c)
    requires req.presented in t.tokens && IndexesAdmit(t, req, t.tokens[req.presented].id)
    requires t.tokens[req.presented].usedAt.None?
    ensures var after := Redeemed(t, req, t.tokens[req.presented], startedAt);
            IsChain(after, family, if t.tokens[req.presented].family == family then c + [req.successorHash] else c)
  {
    var token := t.tokens[req.presented];
    var after := Redeemed(t, req, token, startedAt);
    RedeemedExtends(t, req, startedAt);
    hide HasSuccessor, IdTaken;
    if token.family == family {
      OnlyTipUnused(t, family, c, req.presented);
      ChainGrown(t, after, req.successorHash, family, c);
    } else {
      ChainKept(t, after, req.successorHash, family, c);
    }
  }

  lemma CommitKeepsChains(t: Tables, req: RotateRequest, startedAt: Time, guarded: bool)
    requires Chained(t) && Commit(t, req, startedAt, guarded).Won?
    ensures Chained(Commit(t, req, startedAt, guarded).tables)
  {
    hide HasChain, IsChain, HasSuccessor, IdTaken;
    var after := Redeemed(t, req, t.tokens[req.presented], startedAt);
    UsedIffSucceeded(t, req.presented);
    RedeemedExtends(t, req, startedAt);
    UniqueIdentifiers(t, after, req.successorHash);
    forall f | f in after.families ensures HasChain(after, f) {
      var c := ChainOf(t, f);
      RedeemedChain(t, req, startedAt, f, c);
      ChainWitness(after, f, if t.tokens[req.presented].family == f then c + [req.successorHash] else c);
    }
  }

  lemma ChainWitness(t: Tables, family: string, c: seq<Hash>)
    requires IsChain(t, family, c)
    ensures HasChain(t, family)
  {}

  lemma CreatedExtends(t: Tables, n: NewSession)
    requires Created(t, n).Some?
    ensures Extends(t, Created(t, n).value, n.hash)
  {
    assert Created(t, n).value.tokens.Keys == t.tokens.Keys + {n.hash};
  }

  /** A new login is a chain of one, its root unused. */
  lemma CreationKeepsChains(t: Tables, n: NewSession)
    requires Chained(t) && Created(t, n).Some?
    ensures Chained(Created(t, n).value)
    ensures IsChain(Created(t, n).value, n.family, [n.hash])
  {
    hide HasChain;
    var after := Created(t, n).value;
    CreatedExtends(t, n);
    UniqueIdentifiers(t, after, n.hash);
    assert IsChain(after, n.family, [n.hash]);
    hide IsChain, IdTaken;
    ChainWitness(after, n.family, [n.hash]);
    forall f | f in after.families ensures HasChain(after, f) {
      if f != n.family {
        var c := ChainOf(t, f);
        ChainOfOld(t, after, n.hash, f, c);
        ChainWitness(after, f, c);
      }
    }
  }

  lemma ChainOfOld(t: Tables, after: Tables, added: Hash, family: string, c: seq<Hash>)
    requires Extends(t, after, added) && IsChain(t, family, c) && after.tokens[added].family != family
    requires forall h | h in t.tokens :: after.tokens[h].usedAt == t.tokens[h].usedAt
    ensures IsChain(after, family, c)
  {
    ChainKept(t, after, added, family, c);
  }

  /** Writes that leave the tokens alone leave the chains alone. */
  lemma SameTokensKeepChains(t: Tables, after: Tables)
    requires Chained(t) && after.tokens == t.tokens && after.families.Keys == t.families.Keys
    ensures Chained(after)
  {
    hide HasChain;
    forall f | f in after.families ensures HasChain(after, f) {
      assert f in t.families.Keys;
      var c := ChainOf(t, f);
      assert IsChain(after, f, c);
      ChainWitness(after, f, c);
    }
    forall h | h in after.tokens ensures after.tokens[h].family in after.families {
      assert t.tokens[h].family in t.families.Keys;
    }
  }
}
