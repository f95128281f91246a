/**
 * A Sequelize model over an in-memory table: a sequence of rows, each with its
 * auto-incremented primary key `id`, its owner `userId` and its entity data.
 * `findAll` is a filter followed by a stable sort, `update` and `destroy` act
 * on the rows matching `{ id, userId }` and report how many they touched.
 */
module Store {
  import opened Wrappers
  import opened Lists
  import opened Sorting
  import opened Request

  datatype Row<F> = Row(id: int, userId: int, data: F)

  /** `where: { id, userId }`. */
  predicate Owned<F>(r: Row<F>, id: int, user: int)
  {
    r.id == id && r.userId == user
  }

  function OwnedBy<F>(id: int, user: int): Row<F> -> bool
  {
    r => Owned(r, id, user)
  }

  function NotOwnedBy<F>(id: int, user: int): Row<F> -> bool
  {
    r => !Owned(r, id, user)
  }

  predicate DistinctIds<F>(rows: seq<Row<F>>)
  {
    forall i, j :: 0 <= i < j < |rows| ==> rows[i].id != rows[j].id
  }

  /** The number of rows `update` or `destroy` with `where: { id, userId }` touches. */
  function CountOwned<F>(rows: seq<Row<F>>, id: int, user: int): nat
  {
    |Filter(rows, OwnedBy(id, user))|
  }

  function PatchRow<F>(id: int, user: int, patch: F -> F): Row<F> -> Row<F>
  {
    r => if Owned(r, id, user) then Row(r.id, r.userId, patch(r.data)) else r
  }

  /** The table after `Model.update(values, { where: { id, userId } })`. */
  function Patched<F>(rows: seq<Row<F>>, id: int, user: int, patch: F -> F): seq<Row<F>>
  {
    MapSeq(rows, PatchRow(id, user, patch))
  }

  /** The table after `Model.destroy({ where: { id, userId } })`. */
  function Without<F>(rows: seq<Row<F>>, id: int, user: int): seq<Row<F>>
  {
    Filter(rows, NotOwnedBy(id, user))
  }

  /** `Model.findByPk(id)`: the row with that key, whoever owns it. */
  function FindByPk<F>(rows: seq<Row<F>>, id: int): (r: Option<Row<F>>)
    ensures r.Some? ==> r.value in rows && r.value.id == id
    ensures r.None? <==> forall i :: 0 <= i < |rows| ==> rows[i].id != id
    decreases |rows|
  {
    if rows == [] then None
    else if rows[0].id == id then Some(rows[0])
    else
      var r := FindByPk(rows[1..], id);
      assert forall i :: 1 <= i < |rows| ==> rows[i] == rows[1..][i - 1];
      r
  }

  /** `Model.findAll({ where, order })`; rows that tie on the order keep their table order. */
  function Select<F>(rows: seq<Row<F>>, where: Row<F> -> bool, order: Row<F> -> seq<int>): seq<Row<F>>
  {
    SortBy(Filter(rows, where), order)
  }

  /** `Model.count({ where })`. */
  function CountWhere<F>(rows: seq<Row<F>>, where: Row<F> -> bool): nat
  {
    |Filter(rows, where)|
  }

  // ---------------------------------------------------------------- the table

  class Table<F> {
    var rows: seq<Row<F>>
    var nextId: int

    /** Keys are distinct and below the next key to hand out. */
    predicate Valid()
      reads this
    {
      DistinctIds(rows) && forall i :: 0 <= i < |rows| ==> rows[i].id < nextId
    }

    constructor ()
      ensures Valid() && rows == [] && nextId == 1
    {
      rows := [];
      nextId := 1;
    }

    /** `Model.create(data)`: a new row with a fresh key, added at the end. */
    method Create(user: int, data: F) returns (row: Row<F>)
      requires Valid()
      modifies this
      ensures Valid()
      ensures row == Row(old(nextId), user, data)
      ensures rows == old(rows) + [row] && nextId == old(nextId) + 1
    {
      row := Row(nextId, user, data);
      rows := rows + [row];
      nextId := nextId + 1;
    }

    /** `Model.update(values, { where: { id, userId } })`, answering the number of rows changed. */
    method Update(id: int, user: int, patch: F -> F) returns (count: nat)
      requires Valid()
      modifies this
      ensures Valid()
      ensures rows == Patched(old(rows), id, user, patch) && nextId == old(nextId)
      ensures count == CountOwned(old(rows), id, user)
    {
      PatchedFacts(rows, id, user, patch);
      count := CountOwned(rows, id, user);
      rows := Patched(rows, id, user, patch);
    }

    /** `Model.destroy({ where: { id, userId } })`, answering the number of rows removed. */
    method Destroy(id: int, user: int) returns (count: nat)
      requires Valid()
      modifies this
      ensures Valid()
      ensures rows == Without(old(rows), id, user) && nextId == old(nextId)
      ensures count == CountOwned(old(rows), id, user)
    {
      FilterDistinctIds(rows, NotOwnedBy(id, user));
      forall k | 0 <= k < |Without(rows, id, user)| ensures Without(rows, id, user)[k].id < nextId {
        var x := Without(rows, id, user)[k];
        assert x in multiset(rows);
        var m := IndexOf(rows, x);
      }
      count := CountOwned(rows, id, user);
      rows := Without(rows, id, user);
    }
  }

  // -------------------------------------------- the controllers' shared steps

  /**
   * The update handlers: update the rows matching `{ id, userId }`; 404 when
   * there were none, otherwise the row read back with `findByPk(id)`, which is
   * the owned row with `patch` applied.
   */
  method UpdateOwned<F>(t: Table<F>, id: int, user: int, patch: F -> F, notFound: string) returns (reply: Reply<Row<F>>)
    requires t.Valid()
    modifies t
    ensures t.Valid()
    ensures t.rows == Patched(old(t.rows), id, user, patch) && t.nextId == old(t.nextId)
    ensures reply.Fail? <==> CountOwned(old(t.rows), id, user) == 0
    ensures reply.Fail? ==> reply == Fail(404, notFound)
    ensures reply.Ok? ==> reply.status == 200 && reply.body in t.rows
    ensures reply.Ok? ==> exists r :: r in old(t.rows) && Owned(r, id, user) && reply.body == Row(r.id, r.userId, patch(r.data))
  {
    ghost var before := t.rows;
    var count := t.Update(id, user, patch);
    if count == 0 {
      return Fail(404, notFound);
    }
    var i := OwnedIndex(before, id, user);
    PatchedFacts(before, id, user, patch);
    var found := FindByPk(t.rows, id);
    assert t.rows[i].id == id;
    var k := IndexOf(t.rows, found.value);
    assert k == i;
    reply := Ok(200, found.value);
  }

  /** The delete handlers: destroy the rows matching `{ id, userId }`; 404 when there were none. */
  method DestroyOwned<F>(t: Table<F>, id: int, user: int, notFound: string, done: string) returns (reply: Reply<string>)
    requires t.Valid()
    modifies t
    ensures t.Valid()
    ensures t.rows == Without(old(t.rows), id, user) && t.nextId == old(t.nextId)
    ensures reply == DeleteReply(CountOwned(old(t.rows), id, user), notFound, done)
  {
    var count := t.Destroy(id, user);
    reply := DeleteReply(count, notFound, done);
  }

  // ------------------------------------------------------------------ proofs

  /** Nothing is touched exactly when no row matches both the key and the owner. */
  lemma CountOwnedZero<F>(rows: seq<Row<F>>, id: int, user: int)
    ensures CountOwned(rows, id, user) == 0 <==> forall i :: 0 <= i < |rows| ==> !Owned(rows[i], id, user)
  {
    var r := Filter(rows, OwnedBy(id, user));
    if |r| > 0 {
      assert r[0] in multiset(rows);
      var k := IndexOf(rows, r[0]);
    }
    if exists i :: 0 <= i < |rows| && Owned(rows[i], id, user) {
      var i :| 0 <= i < |rows| && Owned(rows[i], id, user);
      FilterKeepsPassing(rows, OwnedBy(id, user), i);
    }
  }

  /** A row that `update`/`destroy` touched, when the count is not 0. */
  lemma OwnedIndex<F>(rows: seq<Row<F>>, id: int, user: int) returns (i: nat)
    requires CountOwned(rows, id, user) != 0
    ensures i < |rows| && Owned(rows[i], id, user)
  {
    CountOwnedZero(rows, id, user);
    i :| 0 <= i < |rows| && Owned(rows[i], id, user);
  }

  /**
   * `update` changes only the data of the matching rows, by `patch`; keys,
   * owners, length, order and every other row stay as they were.
   */
  lemma PatchedFacts<F>(rows: seq<Row<F>>, id: int, user: int, patch: F -> F)
    ensures |Patched(rows, id, user, patch)| == |rows|
    ensures forall i :: 0 <= i < |rows| ==>
              Patched(rows, id, user, patch)[i].id == rows[i].id &&
              Patched(rows, id, user, patch)[i].userId == rows[i].userId
    ensures forall i :: 0 <= i < |rows| && !Owned(rows[i], id, user) ==> Patched(rows, id, user, patch)[i] == rows[i]
    ensures forall i :: 0 <= i < |rows| && Owned(rows[i], id, user) ==>
              Patched(rows, id, user, patch)[i].data == patch(rows[i].data)
    ensures DistinctIds(rows) ==> DistinctIds(Patched(rows, id, user, patch))
    ensures CountOwned(rows, id, user) == 0 ==> Patched(rows, id, user, patch) == rows
  {
    CountOwnedZero(rows, id, user);
  }

  /** `destroy` removes exactly the matching rows and keeps the others in order. */
  lemma WithoutFacts<F>(rows: seq<Row<F>>, id: int, user: int, x: Row<F>)
    ensures x in Without(rows, id, user) <==> x in rows && !Owned(x, id, user)
    ensures IsSubsequence(Without(rows, id, user), rows)
    ensures |Without(rows, id, user)| + CountOwned(rows, id, user) == |rows|
    ensures CountOwned(rows, id, user) == 0 ==> Without(rows, id, user) == rows
  {
    FilterMembership(rows, NotOwnedBy(id, user), x);
    FilterIsSubsequence(rows, NotOwnedBy(id, user));
    WithoutCount(rows, id, user);
    CountOwnedZero(rows, id, user);
    if CountOwned(rows, id, user) == 0 {
      FilterKeepsAll(rows, NotOwnedBy(id, user));
    }
  }

  lemma {:induction false} WithoutCount<F>(rows: seq<Row<F>>, id: int, user: int)
    ensures |Without(rows, id, user)| + CountOwned(rows, id, user) == |rows|
    decreases |rows|
  {
    if rows != [] {
      WithoutCount(rows[1..], id, user);
    }
  }

  lemma {:induction false} FilterDistinctIds<F>(rows: seq<Row<F>>, keep: Row<F> -> bool)
    requires DistinctIds(rows)
    ensures DistinctIds(Filter(rows, keep))
    decreases |rows|
  {
    if rows != [] {
      var tail := rows[1..];
      assert DistinctIds(tail) by {
        forall i, j | 0 <= i < j < |tail| ensures tail[i].id != tail[j].id {
          assert tail[i] == rows[i + 1] && tail[j] == rows[j + 1];
        }
      }
      FilterDistinctIds(tail, keep);
      var r := Filter(tail, keep);
      forall k | 0 <= k < |r| ensures r[k].id != rows[0].id {
        assert r[k] in multiset(tail);
        var m := IndexOf(tail, r[k]);
        assert tail[m] == rows[m + 1];
      }
    }
  }

  /** `findAll` answers exactly the rows that pass `where`, ordered, and each once. */
  lemma SelectFacts<F>(rows: seq<Row<F>>, where: Row<F> -> bool, order: Row<F> -> seq<int>, x: Row<F>)
    ensures x in Select(rows, where, order) <==> x in rows && where(x)
    ensures multiset(Select(rows, where, order)) == multiset(Filter(rows, where))
    ensures SortedBy(Select(rows, where, order), order)
  {
    FilterMembership(rows, where, x);
    assert x in Select(rows, where, order) <==> x in multiset(Select(rows, where, order));
  }

  /** `order: [['date', 'DESC']]`: the rows with the later `date` first. */
  function NewestBy<F>(date: F -> int): Row<F> -> seq<int>
  {
    (r: Row<F>) => [-date(r.data)]
  }

  /** A selection ordered newest first holds exactly the wanted rows, with dates never increasing. */
  lemma SelectNewestFirst<F>(rows: seq<Row<F>>, where: Row<F> -> bool, date: F -> int, x: Row<F>)
    ensures x in Select(rows, where, NewestBy(date)) <==> x in rows && where(x)
    ensures var r := Select(rows, where, NewestBy(date));
            forall i, j :: 0 <= i < j < |r| ==> date(r[i].data) >= date(r[j].data)
  {
    SelectFacts(rows, where, NewestBy(date), x);
    var r := Select(rows, where, NewestBy(date));
    forall i, j | 0 <= i < j < |r| ensures date(r[i].data) >= date(r[j].data) {
      assert LexLe(NewestBy(date)(r[i]), NewestBy(date)(r[j]));
    }
  }
}
