/** The catalog's state — the ordered `musicas` and the `nextId` counter —
    and its only mutator, POST /musicas/multiplas. */
module Catalog {
  import opened Tracks
  import opened Seqs

  /** A refused entry, reported with its position in the posted array. */
  datatype Rejected = Rejected(indice: nat, musica: RawItem)

  /** The two lists the validation loop builds. */
  datatype Split = Split(adicionadas: seq<Track>, invalidas: seq<Rejected>)

  /** The request body: a JSON array of entries, or anything else. */
  datatype Body = NotArray | Array(items: seq<RawItem>)

  /** The 201 response: the stored records, and the refused entries only when
      there are any (`invalidas` is absent, not empty, otherwise). */
  datatype Insertion = Insertion(adicionadas: seq<Track>, invalidas: Option<seq<Rejected>>)

  /** The position of the first `null` entry, or the length when there is
      none: the loop throws when it reads a field of that entry. */
  function FirstNull(items: seq<RawItem>): (n: nat)
    ensures n <= |items|
    ensures forall j :: 0 <= j < n ==> !items[j].JsonNull?
    ensures n < |items| ==> items[n].JsonNull?
  {
    if items == [] || items[0].JsonNull? then 0 else 1 + FirstNull(items[1..])
  }

  /** Entry `e` reports a refused entry of `items` faithfully. */
  ghost predicate RejectionOf(items: seq<RawItem>, e: Rejected) {
    e.indice < |items| && e.musica == items[e.indice] && !Acceptable(items[e.indice])
  }

  /** One turn of the validation loop: an acceptable entry is stored with
      the next id, any other one is reported with its index. */
  function Visit(p: Split, item: RawItem, indice: nat, firstId: int, currentYear: int): (q: Split)
    ensures |q.adicionadas| + |q.invalidas| == |p.adicionadas| + |p.invalidas| + 1
  {
    if Acceptable(item) then
      Split(p.adicionadas + [Admit(item, firstId + |p.adicionadas|, currentYear)], p.invalidas)
    else
      Split(p.adicionadas, p.invalidas + [Rejected(indice, item)])
  }

  /** The two lists after the validation loop has visited the first `count`
      entries of `items`. */
  function Process(items: seq<RawItem>, count: nat, firstId: int, currentYear: int): (p: Split)
    requires count <= |items|
    ensures |p.adicionadas| + |p.invalidas| == count
  {
    if count == 0 then Split([], [])
    else Visit(Process(items, count - 1, firstId, currentYear), items[count - 1], count - 1, firstId, currentYear)
  }

  /** The stored records carry the consecutive ids `firstId`, `firstId + 1`,
      ... */
  lemma {:induction false} ProcessIds(items: seq<RawItem>, count: nat, firstId: int, currentYear: int)
    requires count <= |items|
    ensures forall k :: 0 <= k < |Process(items, count, firstId, currentYear).adicionadas| ==>
              Process(items, count, firstId, currentYear).adicionadas[k].id == firstId + k
  {
    if count > 0 {
      var p := Process(items, count - 1, firstId, currentYear).adicionadas;
      ProcessIds(items, count - 1, firstId, currentYear);
      if Acceptable(items[count - 1]) {
        var a := p + [Admit(items[count - 1], firstId + |p|, currentYear)];
        assert Process(items, count, firstId, currentYear).adicionadas == a;
        assert forall k :: 0 <= k < |p| ==> a[k] == p[k];
      } else {
        assert Process(items, count, firstId, currentYear).adicionadas == p;
      }
    }
  }

  /** Each refused entry is reported with its own index and value, and the
      indices increase. */
  lemma {:induction false} ProcessRejections(items: seq<RawItem>, count: nat, firstId: int, currentYear: int)
    requires count <= |items|
    ensures forall j :: 0 <= j < |Process(items, count, firstId, currentYear).invalidas| ==>
              && Process(items, count, firstId, currentYear).invalidas[j].indice < count
              && RejectionOf(items, Process(items, count, firstId, currentYear).invalidas[j])
    ensures forall j, k :: 0 <= j < k < |Process(items, count, firstId, currentYear).invalidas| ==>
              Process(items, count, firstId, currentYear).invalidas[j].indice
              < Process(items, count, firstId, currentYear).invalidas[k].indice
  {
    if count > 0 {
      var i := count - 1;
      var p := Process(items, i, firstId, currentYear).invalidas;
      ProcessRejections(items, i, firstId, currentYear);
      if !Acceptable(items[i]) {
        var e := p + [Rejected(i, items[i])];
        assert Process(items, count, firstId, currentYear).invalidas == e;
        assert forall j :: 0 <= j < |p| ==> e[j] == p[j];
      } else {
        assert Process(items, count, firstId, currentYear).invalidas == p;
      }
    }
  }

  /** An entry the loop has visited is refused exactly when one of `titulo`,
      `autor`, `duracao` is falsy (or it is not an object), and then it is
      reported. */
  lemma RejectedExactly(items: seq<RawItem>, count: nat, firstId: int, currentYear: int, i: nat)
    requires i < count <= |items|
    ensures !Acceptable(items[i])
        <==> exists j :: 0 <= j < |Process(items, count, firstId, currentYear).invalidas|
                         && Process(items, count, firstId, currentYear).invalidas[j].indice == i
  {
    ProcessRejections(items, count, firstId, currentYear);
    if !Acceptable(items[i]) {
      RefusedReported(items, count, firstId, currentYear, i);
    }
  }

  /** A refused visited entry is reported. */
  lemma {:induction false} RefusedReported(items: seq<RawItem>, count: nat, firstId: int, currentYear: int, i: nat)
    requires i < count <= |items| && !Acceptable(items[i])
    ensures exists j :: 0 <= j < |Process(items, count, firstId, currentYear).invalidas|
                        && Process(items, count, firstId, currentYear).invalidas[j].indice == i
  {
    var n := count - 1;
    var p := Process(items, n, firstId, currentYear).invalidas;
    var q := Process(items, count, firstId, currentYear).invalidas;
    if i < n {
      RefusedReported(items, n, firstId, currentYear, i);
      var j :| 0 <= j < |p| && p[j].indice == i;
      assert q[j] == p[j];
    } else {
      assert q[|p|].indice == i;
    }
  }

  /** The stored records are the acceptable visited entries, in input order,
      each built with the next consecutive id and the genre and year
      defaults. */
  lemma {:induction false} AcceptedInOrder(items: seq<RawItem>, count: nat, firstId: int, currentYear: int)
    requires count <= |items|
    ensures |Process(items, count, firstId, currentYear).adicionadas| == |Filter(items[..count], Acceptable)|
    ensures |Process(items, count, firstId, currentYear).invalidas| == count - |Filter(items[..count], Acceptable)|
    ensures forall k :: 0 <= k < |Filter(items[..count], Acceptable)| ==>
              Process(items, count, firstId, currentYear).adicionadas[k]
              == Admit(Filter(items[..count], Acceptable)[k], firstId + k, currentYear)
  {
    if count > 0 {
      var i := count - 1;
      var p := Process(items, i, firstId, currentYear).adicionadas;
      var before := Filter(items[..i], Acceptable);
      AcceptedInOrder(items, i, firstId, currentYear);
      FilterPrefixStep(items, count, Acceptable);
      if Acceptable(items[i]) {
        assert Process(items, count, firstId, currentYear).adicionadas
            == p + [Admit(items[i], firstId + |p|, currentYear)];
        AdmittedSnoc(p, before, items[i], firstId, currentYear);
      } else {
        assert Process(items, count, firstId, currentYear).adicionadas == p;
      }
    }
  }

  /** Admitting one more acceptable entry with the next id keeps stored
      records and accepted entries in step. */
  lemma AdmittedSnoc(stored: seq<Track>, accepted: seq<RawItem>, item: RawItem, firstId: int, currentYear: int)
    requires Acceptable(item) && |stored| == |accepted|
    requires forall k :: 0 <= k < |accepted| ==> Acceptable(accepted[k])
    requires forall k :: 0 <= k < |accepted| ==> stored[k] == Admit(accepted[k], firstId + k, currentYear)
    ensures forall k :: 0 <= k < |accepted| + 1 ==>
              (stored + [Admit(item, firstId + |stored|, currentYear)])[k]
              == Admit((accepted + [item])[k], firstId + k, currentYear)
  {
  }

  /** Ids handed out from the counter, one per appended record, keep every id
      distinct and below the counter. */
  lemma FreshIdsKeepInvariant(ms: seq<Track>, nextId: int, added: seq<Track>)
    requires IdsBelow(ms, nextId) && IdsDistinct(ms)
    requires forall k :: 0 <= k < |added| ==> added[k].id == nextId + k
    ensures IdsBelow(ms + added, nextId + |added|) && IdsDistinct(ms + added)
  {
    var all := ms + added;
    forall i, j | 0 <= i < j < |all| ensures all[i].id != all[j].id {
      if j >= |ms| {
        assert all[j].id == nextId + (j - |ms|);
      }
    }
  }

  /** The catalog: the ordered records and the next id to hand out. */
  class Store {
    var musicas: seq<Track>
    var nextId: int

    /** Every id is distinct and below `nextId`, so a fresh id never repeats. */
    ghost predicate Valid()
      reads this
    {
      IdsBelow(musicas, nextId) && IdsDistinct(musicas)
    }

    /** The catalog as the process starts: the five seed records, counter 6. */
    constructor ()
      ensures Valid()
      ensures musicas == Seed() && nextId == SeedNextId
    {
      musicas := Seed();
      nextId := SeedNextId;
    }

    /** POST /musicas/multiplas. A body that is not an array, or is empty, is
        refused before anything is stored. Otherwise the entries are
        validated and stored as `Ingest` does; a `null` entry makes the
        handler throw, after the records before it have been stored. */
    method BulkInsert(body: Body, currentYear: int) returns (r: Result<Insertion>)
      requires Valid()
      modifies this
      ensures Valid()
      ensures body.NotArray? ==> r == Failure(InvalidArgument(NotAnArray))
      ensures body.Array? && body.items == [] ==> r == Failure(InvalidArgument(EmptyArray))
      ensures body.NotArray? || body.items == [] ==> musicas == old(musicas) && nextId == old(nextId)
      ensures body.Array? && body.items != [] ==>
        var n := FirstNull(body.items);
        var p := Process(body.items, n, old(nextId), currentYear);
        && musicas == old(musicas) + p.adicionadas
        && nextId == old(nextId) + |p.adicionadas|
        && r == if n < |body.items| then Failure(UncaughtTypeError(n))
                else Success(Insertion(p.adicionadas, if p.invalidas == [] then None else Some(p.invalidas)))
    {
      if body.NotArray? {
        return Failure(InvalidArgument(NotAnArray));
      }
      var items := body.items;
      if |items| == 0 {
        return Failure(InvalidArgument(EmptyArray));
      }
      var visitados, validas, invalidas := Ingest(items, currentYear);
      if visitados < |items| {
        r := Failure(UncaughtTypeError(visitados));
      } else {
        r := Success(Insertion(validas, if |invalidas| > 0 then Some(invalidas) else None));
      }
    }

    /** The validation loop of the bulk insert. Each entry is checked in
        turn; an acceptable one gets `nextId++` and is appended to `musicas`
        at once, any other one is set aside with its index. Reading a field
        of a `null` entry throws, which ends the loop at that entry. */
    method Ingest(items: seq<RawItem>, currentYear: int) returns (visitados: nat, validas: seq<Track>, invalidas: seq<Rejected>)
      requires Valid()
      modifies this
      ensures Valid()
      ensures visitados == FirstNull(items)
      ensures Split(validas, invalidas) == Process(items, visitados, old(nextId), currentYear)
      ensures musicas == old(musicas) + validas
      ensures nextId == old(nextId) + |validas|
    {
      ghost var before, firstId := musicas, nextId;
      validas, invalidas := [], [];
      var i := 0;
      while i < |items|
        invariant 0 <= i <= |items|
        invariant forall j :: 0 <= j < i ==> !items[j].JsonNull?
        invariant Split(validas, invalidas) == Process(items, i, firstId, currentYear)
        invariant musicas == before + validas
        invariant nextId == firstId + |validas|
      {
        var musica := items[i];
        if musica.JsonNull? {
          break;
        }
        if Acceptable(musica) {
          var id := nextId;
          nextId := nextId + 1;
          var nova := Admit(musica, id, currentYear);
          musicas := musicas + [nova];
          validas := validas + [nova];
        } else {
          invalidas := invalidas + [Rejected(i, musica)];
        }
        i := i + 1;
      }
      visitados := i;
      assert FirstNull(items) == i;
      ProcessIds(items, i, firstId, currentYear);
      FreshIdsKeepInvariant(before, firstId, validas);
    }
  }

  /** Posting one complete entry stores one record with the counter's id and
      the two defaults, and refuses nothing. */
  lemma SingleEntryScenario(nextId: int, currentYear: int)
    ensures var items := [Obj(RawTrack(Some("X"), Some("Y"), Some(2.0), None, None))];
            && FirstNull(items) == |items|
            && Process(items, 1, nextId, currentYear)
               == Split([Track(nextId, "X", "Y", 2.0, DefaultGenre, currentYear)], [])
  {
    var items := [Obj(RawTrack(Some("X"), Some("Y"), Some(2.0), None, None))];
  }

  /** A zero duration is falsy: the entry is refused, not stored. */
  lemma ZeroDurationRefused(nextId: int, currentYear: int)
    ensures var items := [Obj(RawTrack(Some("X"), Some("Y"), Some(0.0), None, None))];
            Process(items, 1, nextId, currentYear) == Split([], [Rejected(0, items[0])])
  {
    var items := [Obj(RawTrack(Some("X"), Some("Y"), Some(0.0), None, None))];
  }
}
