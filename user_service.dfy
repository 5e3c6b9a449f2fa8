// UserService (ainewsback/services/user_service.py): password login, code
// login with automatic registration, and default accounts, over the user
// table. The MD5 digest, the token signer (JWTUtils.create_token) and the
// random draws are parameters.
module UserService {
  import opened Common
  import opened Alphabets
  import opened Models
  import opened Password
  import opened BaseRepository
  import opened UserRepository

  const NoSuchUser: string := "用户不存在"
  const WrongPassword: string := "密码错误"

  /** What an f-string makes of an optional string: None renders as "None". */
  function Str(o: Option<string>): string
  {
    if o.Some? then o.value else "None"
  }

  /** str(user.id), the subject of the token. */
  function IdText(id: Option<int>): string
  {
    if id.Some? then IntToString(id.value) else "None"
  }

  /**
   * verify_password(password, user.password, user.salt) on a stored row: a
   * missing hash matches nothing, a missing salt is hashed as "None".
   */
  predicate PasswordMatches(digest: string -> string, user: ApUser, password: string)
  {
    user.password.Some? && VerifyPassword(digest, password, user.password.value, Str(user.salt))
  }

  /** The random draws create_user_default consumes: 6 name characters, 8 password characters, 8 salt bytes. */
  predicate DefaultDraws(namePicks: seq<int>, passwordPicks: seq<int>, saltBytes: seq<int>)
  {
    && |namePicks| == 6 && ValidPicks(AsciiLetters + Digits, namePicks)
    && |passwordPicks| == 8 && ValidPicks(AsciiLetters + Digits, passwordPicks)
    && |saltBytes| == DefaultSaltLength / 2 && forall i :: 0 <= i < |saltBytes| ==> IsByte(saltBytes[i])
  }

  /** The password create_user_default generates and never reveals. */
  function DefaultPassword(passwordPicks: seq<int>): string
    requires |passwordPicks| == 8 && ValidPicks(AsciiLetters + Digits, passwordPicks)
  {
    GenerateRandomPassword(8, passwordPicks)
  }

  /**
   * The record create_user_default builds before storing it: a name "user_"
   * plus six letters or digits, the phone, and the hash and salt of a fresh
   * eight-character password, which that password verifies against.
   */
  function DefaultUser(digest: string -> string, phone: string, namePicks: seq<int>, passwordPicks: seq<int>,
                       saltBytes: seq<int>, now: int): (u: ApUser)
    requires DefaultDraws(namePicks, passwordPicks, saltBytes)
    ensures u.id.None? && u.status == StatusNormal && u.flag == FlagNormalUser
    ensures u.phone == Some(phone)
    ensures u.name.Some? && |u.name.value| == 11 && u.name.value[..5] == "user_"
    ensures forall i :: 5 <= i < 11 ==> IsAsciiLetter(u.name.value[i]) || IsDigitChar(u.name.value[i])
    ensures u.password.Some? && u.salt.Some? && |u.salt.value| == 16
    ensures PasswordMatches(digest, u, DefaultPassword(passwordPicks))
  {
    var password := DefaultPassword(passwordPicks);
    var (hashed, salt) := CreatePassword(digest, password, saltBytes);
    CreateThenVerify(digest, password, saltBytes);
    NewUser("user_" + GenerateRandomPassword(6, namePicks), phone, hashed, salt, now)
  }

  /** authenticate_by_password's (user, token, error). */
  datatype Login = Login(user: Option<ApUser>, token: Option<string>, error: string)

  /**
   * authenticate_by_password over the table: an unknown phone, then a wrong
   * password, are refused with their messages; otherwise the user and a token
   * for its id, with an empty error.
   */
  function PasswordLogin(rows: seq<ApUser>, digest: string -> string, sign: string -> string,
                         phone: string, password: string): (r: Login)
    ensures r.error == "" <==> r.user.Some?
    ensures r.user.Some? <==> r.token.Some?
    ensures GetByPhone(rows, phone).None? ==> r == Login(None, None, NoSuchUser)
    ensures GetByPhone(rows, phone).Some? && !PasswordMatches(digest, GetByPhone(rows, phone).value, password) ==>
      r == Login(None, None, WrongPassword)
    ensures r.user.Some? ==> r.user == GetByPhone(rows, phone) && PasswordMatches(digest, r.user.value, password)
    ensures r.user.Some? ==> r.token == Some(sign(IdText(r.user.value.id)))
    ensures GetByPhone(rows, phone).Some? && PasswordMatches(digest, GetByPhone(rows, phone).value, password) ==>
      r == Login(GetByPhone(rows, phone), Some(sign(IdText(GetByPhone(rows, phone).value.id))), "")
  {
    match GetByPhone(rows, phone)
    case None => Login(None, None, NoSuchUser)
    case Some(user) =>
      if !PasswordMatches(digest, user, password) then Login(None, None, WrongPassword)
      else Login(Some(user), Some(sign(IdText(user.id))), "")
  }

  /**
   * An account made by create_user_default can log in with the password that
   * was generated for it, as long as no earlier account holds its phone.
   */
  lemma DefaultUserCanLogIn(rows: seq<ApUser>, digest: string -> string, sign: string -> string, phone: string,
                            namePicks: seq<int>, passwordPicks: seq<int>, saltBytes: seq<int>, now: int, id: int)
    requires DefaultDraws(namePicks, passwordPicks, saltBytes)
    requires GetByPhone(rows, phone).None?
    ensures var u := DefaultUser(digest, phone, namePicks, passwordPicks, saltBytes, now).(id := Some(id));
      PasswordLogin(rows + [u], digest, sign, phone, DefaultPassword(passwordPicks)) == Login(Some(u), Some(sign(IntToString(id))), "")
  {
    var u := DefaultUser(digest, phone, namePicks, passwordPicks, saltBytes, now).(id := Some(id));
    GetByPhoneAppend(rows, u, phone);
  }

  /** send_verification_code: accepted exactly when the phone has at least 11 characters (so never when empty). */
  function SendVerificationCode(phone: string): (accepted: bool)
    ensures accepted ==> phone != ""
    ensures accepted <==> |phone| >= 11
  {
    phone != "" && |phone| >= 11
  }

  /** The service over the user table, with the digest and the token signer it uses. */
  class UserService {
    const repository: Repository
    const digest: string -> string
    const sign: string -> string

    constructor (repository: Repository, digest: string -> string, sign: string -> string)
      ensures this.repository == repository && this.digest == digest && this.sign == sign
    {
      this.repository := repository;
      this.digest := digest;
      this.sign := sign;
    }

    /** get_user_by_id: the stored user with that id, None exactly when nobody has it. */
    function GetUserById(id: int): (r: Option<ApUser>)
      reads repository
      ensures r.Some? ==> r.value in repository.rows && r.value.id == Some(id)
      ensures r.None? <==> forall i :: 0 <= i < |repository.rows| ==> repository.rows[i].id != Some(id)
    {
      repository.Get(id)
    }

    /** get_user_by_phone: a stored user with that phone, None exactly when nobody has it. */
    function GetUserByPhone(phone: string): (r: Option<ApUser>)
      reads repository
      ensures r.Some? ==> r.value in repository.rows && r.value.phone == Some(phone)
      ensures r.None? <==> forall i :: 0 <= i < |repository.rows| ==> repository.rows[i].phone != Some(phone)
    {
      GetByPhone(repository.rows, phone)
    }

    /**
     * authenticate_by_password on the current table: "用户不存在" exactly when
     * no stored user has the phone, "密码错误" when the first user with it
     * has another password, and otherwise that user with a token signed for
     * its id and an empty error.
     */
    function AuthenticateByPassword(phone: string, password: string): (r: Login)
      reads repository
      ensures r == PasswordLogin(repository.rows, digest, sign, phone, password)
      ensures r.error == NoSuchUser <==> GetUserByPhone(phone).None?
      ensures r.error == "" <==> r.user.Some?
      ensures GetUserByPhone(phone).Some? && !PasswordMatches(digest, GetUserByPhone(phone).value, password) ==>
        r == Login(None, None, WrongPassword)
      ensures GetUserByPhone(phone).Some? && PasswordMatches(digest, GetUserByPhone(phone).value, password) ==>
        r == Login(GetUserByPhone(phone), Some(sign(IdText(GetUserByPhone(phone).value.id))), "")
      ensures r.user.Some? ==> r.user.value in repository.rows && r.user.value.phone == Some(phone)
      ensures r.user.Some? ==> PasswordMatches(digest, r.user.value, password)
      ensures r.user.Some? <==> r.token.Some?
      ensures r.user.Some? ==> r.token == Some(sign(IdText(r.user.value.id)))
    {
      PasswordLogin(repository.rows, digest, sign, phone, password)
    }

    /**
     * create_user_default: the default record, stored with the next id; None
     * where the commit fails because a row already holds that id.
     */
    method CreateUserDefault(phone: string, namePicks: seq<int>, passwordPicks: seq<int>, saltBytes: seq<int>, now: int)
      returns (user: Option<ApUser>)
      requires repository.Valid() && DefaultDraws(namePicks, passwordPicks, saltBytes)
      modifies repository
      ensures repository.Valid()
      ensures user.None? <==> old(repository.Get(repository.nextId)).Some?
      ensures user.None? ==> repository.rows == old(repository.rows)
      ensures user.Some? ==>
        && user.value == DefaultUser(digest, phone, namePicks, passwordPicks, saltBytes, now).(id := Some(old(repository.nextId)))
        && repository.rows == old(repository.rows) + [user.value]
    {
      user := repository.Create(DefaultUser(digest, phone, namePicks, passwordPicks, saltBytes, now));
    }

    /**
     * authenticate_by_code: the code is not checked. The phone's user, or a
     * new default user when the phone is unknown, and a token for its id.
     * Afterwards the phone is known, so a second call registers no one. When
     * creating the user fails (the id sequence hands out an id a row holds),
     * neither comes back and the table is unchanged.
     */
    method AuthenticateByCode(phone: string, code: string, namePicks: seq<int>, passwordPicks: seq<int>,
                              saltBytes: seq<int>, now: int)
      returns (user: Option<ApUser>, token: Option<string>)
      requires repository.Valid() && DefaultDraws(namePicks, passwordPicks, saltBytes)
      modifies repository
      ensures repository.Valid()
      ensures user.None? <==> token.None?
      ensures user.None? <==>
        old(GetByPhone(repository.rows, phone)).None? && old(repository.Get(repository.nextId)).Some?
      ensures user.None? ==> repository.rows == old(repository.rows)
      ensures user.Some? ==> user.value.phone == Some(phone) && token == Some(sign(IdText(user.value.id)))
      ensures old(GetByPhone(repository.rows, phone)).Some? ==>
        user == old(GetByPhone(repository.rows, phone)) && repository.rows == old(repository.rows)
      ensures old(GetByPhone(repository.rows, phone)).None? && user.Some? ==>
        && user.value == DefaultUser(digest, phone, namePicks, passwordPicks, saltBytes, now).(id := Some(old(repository.nextId)))
        && repository.rows == old(repository.rows) + [user.value]
      ensures user.Some? ==> GetByPhone(repository.rows, phone) == user
    {
      user := GetUserByPhone(phone);
      if user.None? {
        GetByPhoneAppend(repository.rows, DefaultUser(digest, phone, namePicks, passwordPicks, saltBytes, now)
                                            .(id := Some(repository.nextId)), phone);
        user := CreateUserDefault(phone, namePicks, passwordPicks, saltBytes, now);
      }
      token := if user.Some? then Some(sign(IdText(user.value.id))) else None;
    }
  }
}
