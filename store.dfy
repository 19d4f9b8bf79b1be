/**
 * The remote collection behind /api/trainings as the client sees it through
 * its four requests: GET lists it, POST appends a record under an id the
 * store picks, PUT replaces the record with an id, DELETE removes it. The
 * records are kept in the store's natural (insertion) order.
 */
module RecordStore {
  import opened Training

  /** The requests the client issues. */
  datatype Request =
    | GetAll
    | Post(body: Training)
    | Put(id: string, body: Training)
    | Delete(id: string)

  /** Every stored record carries an id, and no two records share one. */
  ghost predicate UniqueIds(s: seq<Training>) {
    && (forall i :: 0 <= i < |s| ==> s[i].id.Some?)
    && (forall i, j :: 0 <= i < j < |s| ==> s[i].id != s[j].id)
  }

  /** The first record stored under id, if any. */
  function Lookup(s: seq<Training>, id: string): (r: Option<Training>)
    ensures r.Some? ==> r.value in s && r.value.id == Some(id)
    ensures r.None? <==> forall i :: 0 <= i < |s| ==> s[i].id != Some(id)
  {
    if s == [] then None
    else if s[0].id == Some(id) then Some(s[0])
    else
      var r := Lookup(s[1..], id);
      assert forall i :: 1 <= i < |s| ==> s[i] == s[1..][i - 1];
      r
  }

  /** POST: the body is stored, last, under the id the store assigns. */
  function Created(s: seq<Training>, body: Training, freshId: string): (r: seq<Training>)
    ensures |r| == |s| + 1 && r[..|s|] == s
    ensures r[|s|].id == Some(freshId)
    ensures forall k :: Get(r[|s|], k) == Get(body, k)
  {
    s + [body.(id := Some(freshId))]
  }

  /** PUT: every field of the record stored under id is replaced by the body's; nothing happens for an unknown id. */
  function Updated(s: seq<Training>, id: string, body: Training): (r: seq<Training>)
    ensures |r| == |s|
    ensures forall i :: 0 <= i < |s| ==> r[i].id == s[i].id
    ensures forall i :: 0 <= i < |s| && s[i].id != Some(id) ==> r[i] == s[i]
    ensures forall i, k :: 0 <= i < |s| && s[i].id == Some(id) ==> Get(r[i], k) == Get(body, k)
  {
    seq(|s|, i requires 0 <= i < |s| => if s[i].id == Some(id) then body.(id := Some(id)) else s[i])
  }

  /** DELETE: the record stored under id is removed; nothing happens for an unknown id. */
  function Deleted(s: seq<Training>, id: string): (r: seq<Training>)
    ensures |r| <= |s|
    ensures forall t :: t in r <==> t in s && t.id != Some(id)
  {
    if s == [] then []
    else if s[0].id == Some(id) then Deleted(s[1..], id)
    else [s[0]] + Deleted(s[1..], id)
  }

  /** A create keeps the ids unique when the store assigns an id it does not hold yet. */
  lemma CreateKeepsIdsUnique(s: seq<Training>, body: Training, freshId: string)
    requires UniqueIds(s) && Lookup(s, freshId).None?
    ensures UniqueIds(Created(s, body, freshId))
  {
  }

  /** An update keeps every record's id, so the ids stay unique. */
  lemma UpdateKeepsIdsUnique(s: seq<Training>, id: string, body: Training)
    requires UniqueIds(s)
    ensures UniqueIds(Updated(s, id, body))
  {
    var u := Updated(s, id, body);
    assert forall i :: 0 <= i < |s| ==> u[i].id == s[i].id;
  }

  /**
   * Create, then fetch: the record comes back under the new id with every
   * field as submitted, the other records are untouched, and ids stay unique.
   */
  lemma CreateRoundTrip(s: seq<Training>, body: Training, freshId: string)
    requires UniqueIds(s) && Lookup(s, freshId).None?
    ensures var s' := Created(s, body, freshId);
      && UniqueIds(s')
      && Lookup(s', freshId).Some?
      && Lookup(s', freshId).value.id == Some(freshId)
      && (forall k :: Get(Lookup(s', freshId).value, k) == Get(body, k))
      && (forall other :: other != freshId ==> Lookup(s', other) == Lookup(s, other))
      && |s'| == |s| + 1 && s'[..|s|] == s
  {
    var stored := body.(id := Some(freshId));
    var s' := s + [stored];
    assert Created(s, body, freshId) == s';
    CreateKeepsIdsUnique(s, body, freshId);
    LookupAppend(s, stored, freshId);
    assert Lookup(s', freshId) == Some(stored);
    forall k ensures Get(stored, k) == Get(body, k) { }
    forall other | other != freshId ensures Lookup(s', other) == Lookup(s, other) {
      LookupAppend(s, stored, other);
    }
    assert s'[..|s|] == s;
  }

  /** Looking up in s + [r]: the hits of s come first, r is found only where s has nothing. */
  lemma {:induction false} LookupAppend(s: seq<Training>, r: Training, id: string)
    ensures Lookup(s + [r], id) == if Lookup(s, id).Some? then Lookup(s, id)
                                   else if r.id == Some(id) then Some(r) else None
  {
    if s != [] {
      assert (s + [r])[1..] == s[1..] + [r];
      LookupAppend(s[1..], r, id);
    }
  }

  /**
   * Update, then fetch: the record under id now holds the body's fields and
   * keeps its id; other records are untouched; ids stay unique; the order
   * and length of the collection are kept.
   */
  lemma UpdateLookup(s: seq<Training>, id: string, body: Training)
    requires UniqueIds(s)
    ensures var s' := Updated(s, id, body);
      && UniqueIds(s')
      && |s'| == |s|
      && Lookup(s', id) == (if Lookup(s, id).Some? then Some(body.(id := Some(id))) else None)
      && (forall other :: other != id ==> Lookup(s', other) == Lookup(s, other))
  {
    var s' := Updated(s, id, body);
    forall i | 0 <= i < |s| ensures s'[i].id == s[i].id { }
    UpdatedLookup(s, id, body, id);
    forall other | other != id ensures Lookup(s', other) == Lookup(s, other) {
      UpdatedLookup(s, id, body, other);
    }
  }

  lemma {:induction false} UpdatedLookup(s: seq<Training>, id: string, body: Training, key: string)
    ensures Lookup(Updated(s, id, body), key) ==
      if key != id then Lookup(s, key)
      else if Lookup(s, id).Some? then Some(body.(id := Some(id))) else None
  {
    if s != [] {
      assert Updated(s, id, body)[1..] == Updated(s[1..], id, body);
      UpdatedLookup(s[1..], id, body, key);
    }
  }

  /** PUT to an id the store does not hold changes nothing. */
  lemma UpdateUnknownId(s: seq<Training>, id: string, body: Training)
    requires Lookup(s, id).None?
    ensures Updated(s, id, body) == s
  {
  }

  /** Submitting the same update twice leaves the store as one submission does. */
  lemma UpdateIdempotent(s: seq<Training>, id: string, body: Training)
    ensures Updated(Updated(s, id, body), id, body) == Updated(s, id, body)
  {
  }

  /** Submitting an update with the stored values unchanged leaves the store unchanged. */
  lemma UpdateWithStoredValues(s: seq<Training>, id: string)
    requires UniqueIds(s) && Lookup(s, id).Some?
    ensures Updated(s, id, Lookup(s, id).value) == s
  {
    var r := Lookup(s, id).value;
    forall i | 0 <= i < |s| && s[i].id == Some(id) ensures s[i] == r {
      var j :| 0 <= j < |s| && s[j] == r;
    }
  }

  /**
   * Delete, then fetch: nothing is stored under id any more, every other
   * record is found as before, and ids stay unique.
   */
  lemma {:induction false} DeleteLookup(s: seq<Training>, id: string)
    requires UniqueIds(s)
    ensures var s' := Deleted(s, id);
      && UniqueIds(s')
      && Lookup(s', id).None?
      && (forall other :: other != id ==> Lookup(s', other) == Lookup(s, other))
      && |s'| == (if Lookup(s, id).Some? then |s| - 1 else |s|)
  {
    if s != [] {
      DeleteLookup(s[1..], id);
      var rest := Deleted(s[1..], id);
      if s[0].id != Some(id) {
        assert Deleted(s, id) == [s[0]] + rest;
        forall r | r in rest ensures r.id != s[0].id { }
        assert Lookup(s[1..], id).Some? <==> Lookup(s, id).Some?;
      } else {
        assert Lookup(s[1..], id).None?;
      }
    }
  }

  /** DELETE of an id the store does not hold changes nothing. */
  lemma {:induction false} DeleteUnknownId(s: seq<Training>, id: string)
    requires Lookup(s, id).None?
    ensures Deleted(s, id) == s
  {
    if s != [] {
      DeleteUnknownId(s[1..], id);
      assert [s[0]] + s[1..] == s;
    }
  }
}
