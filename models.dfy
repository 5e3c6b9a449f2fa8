// The user record of ainewsback/models/user.py (table ap_user) and the generic
// row queries the repositories are built from. A datetime is an int here.
module Models {
  import opened Common

  datatype ApUser = ApUser(
    id: Option<int>,
    salt: Option<string>,
    name: Option<string>,
    password: Option<string>,
    phone: Option<string>,
    image: Option<string>,
    sex: Option<int>,
    isCertification: Option<int>,
    isIdentityAuthentication: Option<bool>,
    status: int,
    flag: int,
    createdTime: Option<int>)

  /** UserStatus.NORMAL and UserFlag.NORMAL_USER, the column defaults. */
  const StatusNormal: int := 0
  const FlagNormalUser: int := 0

  /**
   * ApUser(name=..., phone=..., password=..., salt=...): no id until the
   * database assigns one, every other column at its default, created now.
   */
  function NewUser(name: string, phone: string, password: string, salt: string, now: int): (u: ApUser)
    ensures u.id.None? && u.status == StatusNormal && u.flag == FlagNormalUser
    ensures u.name == Some(name) && u.phone == Some(phone)
    ensures u.password == Some(password) && u.salt == Some(salt)
  {
    ApUser(None, Some(salt), Some(name), Some(password), Some(phone), None, None, None, None,
           StatusNormal, FlagNormalUser, Some(now))
  }

  /** The attributes BaseRepository.update may set, the primary key among them. */
  datatype Field =
    | Id | Salt | Name | Password | Phone | Image | Sex | IsCertification
    | IsIdentityAuthentication | Status | Flag | CreatedTime

  /** A Python value as it appears in an update dictionary; Null is None. */
  datatype Value = Null | Text(s: string) | Int(i: int) | Bool(b: bool)

  function TextOf(o: Option<string>): Value { if o.Some? then Text(o.value) else Null }
  function IntOf(o: Option<int>): Value { if o.Some? then Int(o.value) else Null }

  /** getattr(user, field). */
  function Attr(u: ApUser, f: Field): Value
  {
    match f
    case Id => IntOf(u.id)
    case Salt => TextOf(u.salt)
    case Name => TextOf(u.name)
    case Password => TextOf(u.password)
    case Phone => TextOf(u.phone)
    case Image => TextOf(u.image)
    case Sex => IntOf(u.sex)
    case IsCertification => IntOf(u.isCertification)
    case IsIdentityAuthentication =>
      if u.isIdentityAuthentication.Some? then Bool(u.isIdentityAuthentication.value) else Null
    case Status => Int(u.status)
    case Flag => Int(u.flag)
    case CreatedTime => IntOf(u.createdTime)
  }

  /** A value that is not None and has the column's type. */
  predicate Fits(f: Field, v: Value)
  {
    match f
    case Salt | Name | Password | Phone | Image => v.Text?
    case Id | Sex | IsCertification | Status | Flag | CreatedTime => v.Int?
    case IsIdentityAuthentication => v.Bool?
  }

  /** setattr(user, field, value): that attribute changes, no other does; "id" rewrites the primary key. */
  function SetAttr(u: ApUser, f: Field, v: Value): (r: ApUser)
    requires Fits(f, v)
    ensures Attr(r, f) == v
    ensures forall g :: g != f ==> Attr(r, g) == Attr(u, g)
    ensures r.id == if f == Id then Some(v.i) else u.id
  {
    match f
    case Id => u.(id := Some(v.i))
    case Salt => u.(salt := Some(v.s))
    case Name => u.(name := Some(v.s))
    case Password => u.(password := Some(v.s))
    case Phone => u.(phone := Some(v.s))
    case Image => u.(image := Some(v.s))
    case Sex => u.(sex := Some(v.i))
    case IsCertification => u.(isCertification := Some(v.i))
    case IsIdentityAuthentication => u.(isIdentityAuthentication := Some(v.b))
    case Status => u.(status := v.i)
    case Flag => u.(flag := v.i)
    case CreatedTime => u.(createdTime := Some(v.i))
  }

  /** Two records whose attributes, the id among them, all agree are the same record. */
  lemma {:induction false} SameAttributes(u: ApUser, w: ApUser)
    requires forall f :: Attr(u, f) == Attr(w, f)
    ensures u == w
  {
    var id, salt, name, password := Attr(u, Id), Attr(u, Salt), Attr(u, Name), Attr(u, Password);
    assert id == Attr(w, Id) && salt == Attr(w, Salt) && name == Attr(w, Name) && password == Attr(w, Password);
    var phone, image, sex, cert := Attr(u, Phone), Attr(u, Image), Attr(u, Sex), Attr(u, IsCertification);
    assert phone == Attr(w, Phone) && image == Attr(w, Image) && sex == Attr(w, Sex) && cert == Attr(w, IsCertification);
    var ident, status, flag, created := Attr(u, IsIdentityAuthentication), Attr(u, Status), Attr(u, Flag), Attr(u, CreatedTime);
    assert ident == Attr(w, IsIdentityAuthentication) && status == Attr(w, Status);
    assert flag == Attr(w, Flag) && created == Attr(w, CreatedTime);
  }
}

// Row queries over a sequence of rows: `.where(p).first()`, `.where(p)` and
// `.offset(skip).limit(limit)`. Without ORDER BY the database fixes which rows
// match but not their order; the sequence's order stands for one such order.
module Tables {
  import opened Common

  /** The first row satisfying p, or None when there is none. */
  function First<T>(rows: seq<T>, p: T -> bool): (r: Option<T>)
    ensures r.None? <==> forall i :: 0 <= i < |rows| ==> !p(rows[i])
    ensures r.Some? ==> p(r.value)
    ensures r.Some? ==> exists i :: (0 <= i < |rows| && rows[i] == r.value &&
                                     forall j :: 0 <= j < i ==> !p(rows[j]))
  {
    if rows == [] then None
    else if p(rows[0]) then Some(rows[0])
    else
      var r := First(rows[1..], p);
      assert forall i :: 0 < i < |rows| ==> rows[i] == rows[1..][i - 1];
      r
  }

  /** Appending a row changes the first match only when there was none before. */
  lemma {:induction false} FirstAppend<T>(rows: seq<T>, u: T, p: T -> bool)
    ensures First(rows + [u], p) ==
      if First(rows, p).Some? then First(rows, p) else if p(u) then Some(u) else None
  {
    if rows == [] {
      assert rows + [u] == [u];
    } else {
      assert (rows + [u])[0] == rows[0];
      assert (rows + [u])[1..] == rows[1..] + [u];
      FirstAppend(rows[1..], u, p);
    }
  }

  /** The rows satisfying p, in the order of `rows`. */
  function Filter<T>(rows: seq<T>, p: T -> bool): (r: seq<T>)
    ensures |r| <= |rows|
    ensures |r| == |rows| <==> forall i :: 0 <= i < |rows| ==> p(rows[i])
    ensures forall i :: 0 <= i < |r| ==> r[i] in rows && p(r[i])
    ensures forall i :: 0 <= i < |rows| && p(rows[i]) ==> rows[i] in r
  {
    if rows == [] then []
    else if p(rows[0]) then [rows[0]] + Filter(rows[1..], p)
    else
      var r := Filter(rows[1..], p);
      assert !p(rows[0]);
      r
  }

  /**
   * Filtering a table with one more row at its end keeps the earlier result
   * and appends the new row exactly when it matches. With Filter([], p) == [],
   * this fixes the result row by row: the matching rows, each as often as it
   * occurs, in the order of `rows`.
   */
  lemma {:induction false} FilterAppend<T>(rows: seq<T>, u: T, p: T -> bool)
    ensures Filter(rows + [u], p) == Filter(rows, p) + (if p(u) then [u] else [])
  {
    if rows == [] {
      assert rows + [u] == [u];
      assert [u][1..] == [];
    } else {
      assert (rows + [u])[0] == rows[0];
      assert (rows + [u])[1..] == rows[1..] + [u];
      FilterAppend(rows[1..], u, p);
    }
  }

  /** OFFSET skip LIMIT limit: the slice of at most `limit` rows that starts after `skip` rows. */
  function Page<T>(rows: seq<T>, skip: nat, limit: nat): (r: seq<T>)
    ensures |r| <= limit
    ensures |r| == if skip >= |rows| then 0 else if |rows| - skip < limit then |rows| - skip else limit
    ensures forall i :: 0 <= i < |r| ==> r[i] == rows[skip + i]
  {
    if skip >= |rows| then []
    else if |rows| - skip < limit then rows[skip..]
    else rows[skip..skip + limit]
  }
}
