// BaseRepository (ainewsback/repositories/base.py) instantiated for ApUser: the
// session's table is an ordered sequence of rows, and the database's id
// sequence is the counter nextId.
module BaseRepository {
  import opened Common
  import opened Models
  import opened Tables

  /** The `id == key` filter of session.get. */
  function HasId(id: int): ApUser -> bool
  {
    (u: ApUser) => u.id == Some(id)
  }

  /** No two rows share an id. */
  ghost predicate UniqueIds(rows: seq<ApUser>)
  {
    forall i, j :: 0 <= i < j < |rows| ==> rows[i].id != rows[j].id
  }

  /** Taking out the one row with a given id leaves exactly the rows with other ids. */
  lemma RemoveRow(rows: seq<ApUser>, k: nat, id: int)
    requires UniqueIds(rows)
    requires k < |rows| && rows[k].id == Some(id)
    ensures UniqueIds(rows[..k] + rows[k + 1..])
    ensures forall u :: u in rows[..k] + rows[k + 1..] <==> u in rows && u.id != Some(id)
  {
    var rest := rows[..k] + rows[k + 1..];
    assert forall i :: 0 <= i < |rest| ==> rest[i] == rows[if i < k then i else i + 1];
    forall u | u in rows && u.id != Some(id) ensures u in rest {
      var j :| 0 <= j < |rows| && rows[j] == u;
      assert u == rest[if j < k then j else j - 1];
    }
  }

  /**
   * The table with the row whose id is `id` replaced by u, which may carry a
   * new id as long as no other row holds it: same length, ids unique.
   */
  function ReplaceRow(rows: seq<ApUser>, id: Option<int>, u: ApUser): (r: seq<ApUser>)
    requires UniqueIds(rows)
    requires forall i :: 0 <= i < |rows| && rows[i].id == u.id ==> rows[i].id == id
    ensures |r| == |rows|
    ensures forall i :: 0 <= i < |r| ==> r[i] == if rows[i].id == id then u else rows[i]
    ensures forall i :: 0 <= i < |r| ==> r[i].id == if rows[i].id == id then u.id else rows[i].id
    ensures UniqueIds(r)
  {
    seq(|rows|, i requires 0 <= i < |rows| => if rows[i].id == id then u else rows[i])
  }

  /**
   * The loop of update(db_obj, obj_in): every attribute whose value in obj_in
   * is not None is set, the id included; None entries and attributes obj_in
   * does not mention keep their values.
   */
  method SetAttributes(dbObj: ApUser, objIn: map<Field, Value>) returns (u: ApUser)
    requires forall f :: f in objIn && objIn[f] != Null ==> Fits(f, objIn[f])
    ensures forall f :: Attr(u, f) == if f in objIn && objIn[f] != Null then objIn[f] else Attr(dbObj, f)
    ensures u.id == if Id in objIn && objIn[Id].Int? then Some(objIn[Id].i) else dbObj.id
    ensures (forall f :: f in objIn ==> objIn[f] == Null) ==> u == dbObj
  {
    u := dbObj;
    var pending := objIn.Keys;
    while pending != {}
      invariant pending <= objIn.Keys
      invariant forall f :: (Attr(u, f) ==
        if f in objIn && f !in pending && objIn[f] != Null then objIn[f] else Attr(dbObj, f))
      decreases |pending|
    {
      var f :| f in pending;
      if objIn[f] != Null {
        u := SetAttr(u, f, objIn[f]);
      }
      pending := pending - {f};
    }
    assert Attr(u, Id) == IntOf(u.id);
    if forall f :: f in objIn ==> objIn[f] == Null {
      SameAttributes(u, dbObj);
    }
  }

  class Repository {
    var rows: seq<ApUser>
    var nextId: int

    /**
     * Every stored row has an id and no two share one. The id sequence may
     * lag behind the stored ids, since update can move a row to any free id.
     */
    ghost predicate Valid()
      reads this
    {
      && (forall i :: 0 <= i < |rows| ==> rows[i].id.Some?)
      && UniqueIds(rows)
    }

    /** With unique ids, get(id) finds the one record that has it. */
    lemma GetFindsUnique(u: ApUser)
      requires Valid() && u in rows && u.id.Some?
      ensures Get(u.id.value) == Some(u)
    {
      var r := Get(u.id.value);
      var i :| 0 <= i < |rows| && rows[i] == u;
      var j :| 0 <= j < |rows| && rows[j] == r.value;
      assert i == j;
    }

    constructor ()
      ensures Valid() && rows == []
    {
      rows := [];
      nextId := 1;
    }

    /** get(id): the stored record with that primary key, or None. */
    function Get(id: int): (r: Option<ApUser>)
      reads this
      ensures r.Some? ==> r.value in rows && r.value.id == Some(id)
      ensures r.None? <==> forall i :: 0 <= i < |rows| ==> rows[i].id != Some(id)
    {
      First(rows, HasId(id))
    }

    /**
     * get_all(skip, limit): at most `limit` consecutive records, starting
     * after the first `skip`; None where the database refuses a negative
     * OFFSET or LIMIT.
     */
    function GetAll(skip: int, limit: int): (r: Option<seq<ApUser>>)
      reads this
      ensures r.None? <==> skip < 0 || limit < 0
      ensures r.Some? ==> |r.value| <= limit
      ensures r.Some? && skip < |rows| ==> |r.value| == if |rows| - skip < limit then |rows| - skip else limit
      ensures r.Some? && skip >= |rows| ==> r.value == []
      ensures r.Some? ==> forall i :: 0 <= i < |r.value| ==> r.value[i] == rows[skip + i]
    {
      if skip < 0 || limit < 0 then None else Some(Page(rows, skip, limit))
    }

    /**
     * create(obj): the database draws the next value of the id sequence. When
     * a row already holds it the commit fails (None) and nothing is stored;
     * otherwise the record is stored with that id, returned and can be found.
     * The sequence advances either way.
     */
    method Create(obj: ApUser) returns (r: Option<ApUser>)
      requires Valid()
      requires obj.id.None?
      modifies this
      ensures Valid() && nextId == old(nextId) + 1
      ensures r.None? <==> old(Get(nextId)).Some?
      ensures r.None? ==> rows == old(rows)
      ensures r.Some? ==> r.value == obj.(id := Some(old(nextId))) && rows == old(rows) + [r.value]
      ensures r.Some? ==> Get(r.value.id.value) == r
    {
      if Get(nextId).Some? {
        r := None;
      } else {
        var u := obj.(id := Some(nextId));
        rows := rows + [u];
        GetFindsUnique(u);
        r := Some(u);
      }
      nextId := nextId + 1;
    }

    /**
     * update(db_obj, obj_in): obj_in's non-None values are set on the stored
     * record. When that moves it to an id another row holds, the commit fails
     * (None) and the table is unchanged; otherwise the updated record replaces
     * the stored one and only that row changes.
     */
    method Update(dbObj: ApUser, objIn: map<Field, Value>) returns (r: Option<ApUser>)
      requires Valid()
      requires dbObj.id.Some? && Get(dbObj.id.value) == Some(dbObj)
      requires forall f :: f in objIn && objIn[f] != Null ==> Fits(f, objIn[f])
      modifies this
      ensures Valid() && nextId == old(nextId)
      ensures var newId := if Id in objIn && objIn[Id].Int? then objIn[Id].i else dbObj.id.value;
        r.None? <==> newId != dbObj.id.value && old(Get(newId)).Some?
      ensures r.None? ==> rows == old(rows)
      ensures r.Some? ==> forall f :: Attr(r.value, f) == if f in objIn && objIn[f] != Null then objIn[f] else Attr(dbObj, f)
      ensures r.Some? && (forall f :: f in objIn ==> objIn[f] == Null) ==> r.value == dbObj
      ensures r.Some? ==> |rows| == |old(rows)|
      ensures r.Some? ==> forall i :: 0 <= i < |rows| ==> rows[i] == if old(rows[i]).id == dbObj.id then r.value else old(rows[i])
    {
      var u := SetAttributes(dbObj, objIn);
      if u.id != dbObj.id && Get(u.id.value).Some? {
        r := None;
      } else {
        rows := ReplaceRow(rows, dbObj.id, u);
        r := Some(u);
      }
    }

    /** delete(id): True and the record removed when it existed; otherwise False and nothing changes. */
    method Delete(id: int) returns (deleted: bool)
      requires Valid()
      modifies this
      ensures Valid() && nextId == old(nextId)
      ensures deleted <==> old(Get(id)).Some?
      ensures !deleted ==> rows == old(rows)
      ensures deleted ==> |rows| == |old(rows)| - 1
      ensures deleted ==> exists k :: (0 <= k < |old(rows)| && old(rows)[k].id == Some(id) &&
                                       rows == old(rows)[..k] + old(rows)[k + 1..])
      ensures forall u :: u in rows <==> u in old(rows) && u.id != Some(id)
      ensures Get(id).None?
    {
      var obj := Get(id);
      if obj.Some? {
        var k :| 0 <= k < |rows| && rows[k] == obj.value;
        RemoveRow(rows, k, id);
        rows := rows[..k] + rows[k + 1..];
        deleted := true;
      } else {
        deleted := false;
      }
    }
  }
}
