// UserRepository's own queries (ainewsback/repositories/user_repository.py):
// read-only filters over the rows of the user table.
module UserRepository {
  import opened Common
  import opened Models
  import opened Tables

  /** The `phone == phone` filter of get_by_phone. */
  function PhoneIs(phone: string): ApUser -> bool
  {
    (u: ApUser) => u.phone == Some(phone)
  }

  /** get_by_phone(phone): the first user whose phone equals `phone`, None when nobody has it. */
  function GetByPhone(rows: seq<ApUser>, phone: string): (r: Option<ApUser>)
    ensures r.Some? ==> r.value in rows && r.value.phone == Some(phone)
    ensures r.None? <==> forall i :: 0 <= i < |rows| ==> rows[i].phone != Some(phone)
  {
    First(rows, PhoneIs(phone))
  }

  /** Looking a phone up after appending a row finds the old match, or else the new row if it has that phone. */
  lemma GetByPhoneAppend(rows: seq<ApUser>, u: ApUser, phone: string)
    ensures GetByPhone(rows + [u], phone) ==
      if GetByPhone(rows, phone).Some? then GetByPhone(rows, phone)
      else if u.phone == Some(phone) then Some(u) else None
  {
    FirstAppend(rows, u, PhoneIs(phone));
  }

  /** get_by_name(name): the first user with that name, None when nobody has it. */
  function GetByName(rows: seq<ApUser>, name: string): (r: Option<ApUser>)
    ensures r.Some? ==> r.value in rows && r.value.name == Some(name)
    ensures r.None? <==> forall i :: 0 <= i < |rows| ==> rows[i].name != Some(name)
  {
    First(rows, (u: ApUser) => u.name == Some(name))
  }

  /** `name LIKE '%keyword%'`: a NULL name never matches. */
  predicate NameContains(u: ApUser, keyword: string)
  {
    u.name.Some? && Contains(u.name.value, keyword)
  }

  /** The where clause of search_users: both of its disjuncts test the name. */
  function SearchFilter(keyword: string): ApUser -> bool
  {
    (u: ApUser) => NameContains(u, keyword) || NameContains(u, keyword)
  }

  /** The users whose name contains the keyword, in the order of `rows`: the where clause of search_users. */
  function Matching(rows: seq<ApUser>, keyword: string): (m: seq<ApUser>)
    ensures forall i :: 0 <= i < |m| ==> m[i] in rows && NameContains(m[i], keyword)
    ensures forall i :: 0 <= i < |rows| && NameContains(rows[i], keyword) ==> rows[i] in m
  {
    Filter(rows, SearchFilter(keyword))
  }

  /** One more row at the table's end joins the matches, at their end, exactly when its name contains the keyword. */
  lemma MatchingAppend(rows: seq<ApUser>, u: ApUser, keyword: string)
    ensures Matching(rows + [u], keyword) == Matching(rows, keyword) + (if NameContains(u, keyword) then [u] else [])
  {
    FilterAppend(rows, u, SearchFilter(keyword));
  }

  /**
   * search_users(keyword, skip, limit): the matches from position `skip` on,
   * at most `limit` of them, in the order of `rows`; None where the database refuses
   * a negative OFFSET or LIMIT.
   */
  function SearchUsers(rows: seq<ApUser>, keyword: string, skip: int, limit: int): (r: Option<seq<ApUser>>)
    ensures r.None? <==> skip < 0 || limit < 0
    ensures r.Some? ==> |r.value| <= limit
    ensures r.Some? ==> |r.value| == if skip >= |Matching(rows, keyword)| then 0
                                      else if |Matching(rows, keyword)| - skip < limit then |Matching(rows, keyword)| - skip
                                      else limit
    ensures r.Some? ==> forall i :: 0 <= i < |r.value| ==> r.value[i] == Matching(rows, keyword)[skip + i]
    ensures r.Some? ==> forall i :: 0 <= i < |r.value| ==> r.value[i] in rows && NameContains(r.value[i], keyword)
  {
    if skip < 0 || limit < 0 then None else Some(Page(Matching(rows, keyword), skip, limit))
  }

  /** Every match whose position falls inside the window [skip, skip + limit) is returned, at that position less skip. */
  lemma SearchUsersWindow(rows: seq<ApUser>, keyword: string, skip: nat, limit: nat, k: nat)
    requires skip <= k < skip + limit && k < |Matching(rows, keyword)|
    ensures SearchUsers(rows, keyword, skip, limit).Some?
    ensures var page := SearchUsers(rows, keyword, skip, limit).value;
      k - skip < |page| && page[k - skip] == Matching(rows, keyword)[k]
  {
  }

  /** The names of the rows, in order. */
  function Names(rows: seq<ApUser>): seq<Option<string>>
  {
    seq(|rows|, i requires 0 <= i < |rows| => rows[i].name)
  }

  /** The names among `names` that contain the keyword, in order. */
  function NameMatches(names: seq<Option<string>>, keyword: string): seq<Option<string>>
  {
    if names == [] then []
    else (if names[0].Some? && Contains(names[0].value, keyword) then [names[0]] else []) + NameMatches(names[1..], keyword)
  }

  /** The names of the matching rows depend on the names of the rows alone. */
  lemma {:induction false} NamesOfMatches(rows: seq<ApUser>, keyword: string)
    ensures Names(Filter(rows, SearchFilter(keyword))) == NameMatches(Names(rows), keyword)
  {
    if rows != [] {
      var p := SearchFilter(keyword);
      var rest := Filter(rows[1..], p);
      NamesOfMatches(rows[1..], keyword);
      var names := Names(rows);
      assert names[0] == rows[0].name && names[1..] == Names(rows[1..]);
      if p(rows[0]) {
        assert Filter(rows, p) == [rows[0]] + rest;
        assert Names([rows[0]] + rest) == [rows[0].name] + Names(rest);
      } else {
        assert Filter(rows, p) == rest;
      }
    }
  }

  lemma FilterSeesOnlyNames(rows1: seq<ApUser>, rows2: seq<ApUser>, keyword: string)
    requires Names(rows1) == Names(rows2)
    ensures Names(Filter(rows1, SearchFilter(keyword))) == Names(Filter(rows2, SearchFilter(keyword)))
  {
    NamesOfMatches(rows1, keyword);
    NamesOfMatches(rows2, keyword);
  }

  /**
   * The phone column is never searched: two tables that agree on their names
   * give results that agree on their names, whatever the phones hold.
   */
  lemma SearchSeesOnlyNames(rows1: seq<ApUser>, rows2: seq<ApUser>, keyword: string, skip: nat, limit: nat)
    requires Names(rows1) == Names(rows2)
    ensures Names(SearchUsers(rows1, keyword, skip, limit).value) == Names(SearchUsers(rows2, keyword, skip, limit).value)
  {
    FilterSeesOnlyNames(rows1, rows2, keyword);
    PageSeesOnlyNames(Matching(rows1, keyword), Matching(rows2, keyword), skip, limit);
    assert SearchUsers(rows1, keyword, skip, limit).value == Page(Matching(rows1, keyword), skip, limit);
    assert SearchUsers(rows2, keyword, skip, limit).value == Page(Matching(rows2, keyword), skip, limit);
  }

  /** A window of two lists with the same names has the same names. */
  lemma PageSeesOnlyNames(f1: seq<ApUser>, f2: seq<ApUser>, skip: nat, limit: nat)
    requires Names(f1) == Names(f2)
    ensures Names(Page(f1, skip, limit)) == Names(Page(f2, skip, limit))
  {
    assert |f1| == |Names(f1)| == |Names(f2)| == |f2|;
    var r1 := Page(f1, skip, limit);
    var r2 := Page(f2, skip, limit);
    forall i | 0 <= i < |r1|
      ensures Names(r1)[i] == Names(r2)[i]
    {
      assert r1[i] == f1[skip + i] && r2[i] == f2[skip + i];
      assert Names(f1)[skip + i] == Names(f2)[skip + i];
    }
  }
}
