/** One-way contact rows, the mutual relation drawn from them, and who is shown whose presence. */
module Contacts {
  import GroupModel

  type UserId = GroupModel.UserId

  /** user has contact in the list: the key of the contacts table. */
  datatype Row = Row(user: UserId, contact: UserId)

  predicate Mutual(rows: set<Row>, a: UserId, b: UserId) {
    Row(a, b) in rows && Row(b, a) in rows
  }

  function ContactsOf(rows: set<Row>, u: UserId): set<UserId> {
    set r | r in rows && r.contact == u :: r.user
  }

  function MutualIDs(rows: set<Row>, u: UserId): set<UserId> {
    set r | r in rows && r.user == u && Mutual(rows, u, r.contact) :: r.contact
  }

  /** Who added u and was not added back. */
  function PendingIncoming(rows: set<Row>, u: UserId): set<UserId> {
    set r | r in rows && r.contact == u && Row(u, r.user) !in rows :: r.user
  }

  // ---------- queries ----------

  /** COUNT(*) of the rows in either direction, compared with 2: a user's row to itself counts once, so
      nobody is their own mutual contact. */
  method IsMutualContact(rows: set<Row>, a: UserId, b: UserId) returns (mutual: bool)
    ensures mutual <==> a != b && Mutual(rows, a, b)
  {
    var n := 0;
    var rest := rows;
    ghost var counted: set<Row> := {};
    while rest != {}
      invariant rest <= rows
      invariant counted == set r | r in rows && r !in rest && (r == Row(a, b) || r == Row(b, a))
      invariant n == |counted|
      decreases |rest|
    {
      var r :| r in rest;
      rest := rest - {r};
      if r == Row(a, b) || r == Row(b, a) {
        n, counted := n + 1, counted + {r};
      }
    }
    mutual := n == 2;
    PairCount(counted, rows, a, b);
  }

  lemma PairCount(counted: set<Row>, rows: set<Row>, a: UserId, b: UserId)
    requires counted == set r | r in rows && (r == Row(a, b) || r == Row(b, a))
    ensures |counted| == 2 <==> a != b && Mutual(rows, a, b)
  {
    assert counted == {Row(a, b), Row(b, a)} * rows;
    if Mutual(rows, a, b) {
      assert counted == {Row(a, b), Row(b, a)};
    } else if Row(a, b) in rows {
      assert counted == {Row(a, b)};
    } else if Row(b, a) in rows {
      assert counted == {Row(b, a)};
    } else {
      assert counted == {};
    }
  }

  /** The self-join of contacts with itself. */
  method MutualContactIDs(rows: set<Row>, u: UserId) returns (out: set<UserId>)
    ensures out == MutualIDs(rows, u)
  {
    out := {};
    var rest := rows;
    while rest != {}
      invariant rest <= rows
      invariant out == set r | r in rows && r !in rest && r.user == u && Mutual(rows, u, r.contact) :: r.contact
      decreases |rest|
    {
      var r :| r in rest;
      rest := rest - {r};
      if r.user == u && Row(r.contact, r.user) in rows {
        out := out + {r.contact};
      }
    }
  }

  /** filterMutualContacts: the candidates that are mutual contacts, in their order. */
  method FilterMutual(rows: set<Row>, u: UserId, candidates: seq<UserId>) returns (out: seq<UserId>)
    ensures out == Filtered(candidates, MutualIDs(rows, u))
  {
    out := [];
    var mutual := MutualContactIDs(rows, u);
    for i := 0 to |candidates|
      invariant out == Filtered(candidates[..i], mutual)
    {
      assert candidates[..i + 1][..i] == candidates[..i];
      if candidates[i] in mutual {
        out := out + [candidates[i]];
      }
    }
    assert candidates[..|candidates|] == candidates;
  }

  function Filtered(q: seq<UserId>, keep: set<UserId>): (out: seq<UserId>)
    ensures forall x :: x in out <==> x in q && x in keep
  {
    if q == [] then [] else
      var rest, last := Filtered(q[..|q| - 1], keep), q[|q| - 1];
      assert q == q[..|q| - 1] + [last];
      if last in keep then rest + [last] else rest
  }

  /** One user's presence snapshot: every contact, true for those online and mutual. */
  method Snapshot(rows: set<Row>, u: UserId, contacts: seq<UserId>, online: set<UserId>)
    returns (state: map<UserId, bool>)
    ensures forall w :: w in state <==> w in contacts
    ensures forall w | w in state :: state[w] <==> w in online && Mutual(rows, u, w)
  {
    var mutual := MutualContactIDs(rows, u);
    state := map[];
    for i := 0 to |contacts|
      invariant forall w :: w in state <==> w in contacts[..i]
      invariant forall w | w in state :: state[w] <==> w in online && w in mutual
    {
      state := state[contacts[i] := contacts[i] in online && contacts[i] in mutual];
    }
    MutualIffListed(rows, u);
  }

  // ---------- the relation ----------

  lemma MutualIffListed(rows: set<Row>, u: UserId)
    ensures forall w :: w in MutualIDs(rows, u) <==> Mutual(rows, u, w)
  {
    forall w | Mutual(rows, u, w) ensures w in MutualIDs(rows, u) {
      assert Row(u, w) in rows && Row(u, w).user == u && Row(u, w).contact == w;
    }
  }

  /** The batch query and the pair query agree on everybody but the user: they differ exactly when the
      user has a row to itself. */
  lemma BatchAgreesWithPair(rows: set<Row>, a: UserId, b: UserId)
    ensures (b in MutualIDs(rows, a) <==> a != b && Mutual(rows, a, b)) <==> !(a == b && Row(a, a) in rows)
  {
    MutualIffListed(rows, a);
  }

  /** Everyone who has u as a contact is either a mutual contact or a pending request, never both. */
  lemma IncomingIsMutualOrPending(rows: set<Row>, u: UserId)
    ensures ContactsOf(rows, u) == MutualIDs(rows, u) + PendingIncoming(rows, u)
    ensures MutualIDs(rows, u) !! PendingIncoming(rows, u)
  {
    MutualIffListed(rows, u);
    forall w | w in ContactsOf(rows, u) && w !in MutualIDs(rows, u) ensures w in PendingIncoming(rows, u) {
      assert Row(w, u) in rows && Row(w, u).contact == u && Row(w, u).user == w;
    }
    forall w | w in MutualIDs(rows, u) ensures w in ContactsOf(rows, u) {
      assert Row(w, u) in rows && Row(w, u).contact == u && Row(w, u).user == w;
    }
  }

  /** The presence of u is broadcast to w exactly when w's snapshot may show u online: both say mutual,
      so the two channels cannot contradict each other. */
  lemma BroadcastAgreesWithSnapshot(rows: set<Row>, u: UserId, w: UserId, watchers: seq<UserId>)
    requires forall x :: x in watchers <==> x in ContactsOf(rows, u)
    ensures w in Filtered(watchers, MutualIDs(rows, u)) <==> u in MutualIDs(rows, w)
  {
    MutualIffListed(rows, u);
    MutualIffListed(rows, w);
    IncomingIsMutualOrPending(rows, u);
  }
}
