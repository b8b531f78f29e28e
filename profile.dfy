/** The profile update endpoint (`update_profile` in api/v1/updateuser.py).

    One request runs through early-return checks (authentication, lookup,
    username and email uniqueness, avatar file) while it assigns the fields of
    the loaded row, and finally commits. The user table is a `map<int, User>`
    held by a `UserTable` object; the row being edited is a separate pending
    copy that reaches the table only through `Commit`. `ProfileUpdate` is the
    specification of one request; the lemmas below state what it promises. */
module Profile {
  import opened Http

  /** A row of the user table, with the columns the endpoint reads or writes. */
  datatype User = User(
    id: int,
    username: string,
    email: Option<string>,
    passwordHash: Option<string>,
    fullName: Option<string>,
    bio: Option<string>,
    avatarUrl: Option<string>,
    updatedAt: Option<int>)

  /** A value of the multipart form: a text field, or an uploaded file with
      its client-side filename and its bytes. */
  datatype FormValue = Text(text: string) | File(filename: string, content: seq<bv8>)

  /** The form fields the endpoint reads; `None` where `form.get` finds no
      such field. */
  datatype Form = Form(
    fullName: Option<string>,
    username: Option<string>,
    email: Option<string>,
    bio: Option<string>,
    avatar: Option<FormValue>)

  /** The image library's decoder: the format it identifies in the bytes
      ("JPEG", "PNG", "GIF", ...), or `None` where it raises
      `UnidentifiedImageError`. */
  type ImageDecoder = seq<bv8> -> Option<string>

  const BIO_MAX_LENGTH: nat := 160
  const ALLOWED_FORMATS: set<string> := {"JPEG", "PNG", "WEBP"}
  const AVATAR_URL_PREFIX: string := "/static/images/avatars/"
  const SUCCESS_MESSAGE: string := "Profile update success"

  const UNAUTHORIZED: Failure := HttpError(401, "Unauthorized")
  const USER_NOT_FOUND: Failure := HttpError(404, "User not found")
  const USERNAME_TAKEN: Failure := HttpError(400, "Username already taken")
  const EMAIL_IN_USE: Failure := HttpError(400, "Email already in use")
  const INVALID_IMAGE: Failure := HttpError(400, "Uploaded file is not a valid image")
  const UNSUPPORTED_FORMAT: Failure := HttpError(400, "Unsupported image format")

  // ---------------------------------------------------------------------------
  // Table invariants
  // ---------------------------------------------------------------------------

  /** Every row sits under its own id, and no two rows share a username or a
      (present) email. */
  ghost predicate ValidTable(table: map<int, User>)
  {
    && (forall k :: k in table ==> table[k].id == k)
    && (forall a, b :: a in table && b in table && a != b ==> table[a].username != table[b].username)
    && (forall a, b :: a in table && b in table && a != b && table[a].email.Some? ==> table[a].email != table[b].email)
  }

  // ---------------------------------------------------------------------------
  // Decimal rendering of ids (Python's `str(int)`)
  // ---------------------------------------------------------------------------

  function DigitChar(d: int): (c: char)
    requires 0 <= d < 10
    ensures '0' <= c <= '9' && c as int - '0' as int == d
  {
    (d + '0' as int) as char
  }

  /** The number a string of decimal digits denotes, most significant digit
      first. */
  function DecimalValue(s: string): nat
    requires forall i :: 0 <= i < |s| ==> '0' <= s[i] <= '9'
  {
    if s == [] then 0 else 10 * DecimalValue(s[..|s| - 1]) + (s[|s| - 1] as int - '0' as int)
  }

  /** The decimal digits of `n`, without leading zeros. */
  function NatToString(n: nat): (s: string)
    ensures 1 <= |s| && (|s| == 1 <==> n < 10)
    ensures forall i :: 0 <= i < |s| ==> '0' <= s[i] <= '9'
    ensures DecimalValue(s) == n
    ensures s[0] == '0' <==> n == 0
    ensures |s| > 1 ==> s[0] != '0'
  {
    if n < 10 then [DigitChar(n)]
    else
      var s := NatToString(n / 10) + [DigitChar(n % 10)];
      assert s[..|s| - 1] == NatToString(n / 10);
      s
  }

  /** Python's `str(i)`: a minus sign before the digits of a negative number. */
  function IntToString(i: int): (s: string)
    ensures s != [] && (s[0] == '-' <==> i < 0)
    ensures var digits := if i < 0 then s[1..] else s;
      && digits != []
      && (forall k :: 0 <= k < |digits| ==> '0' <= digits[k] <= '9')
      && DecimalValue(digits) == (if i < 0 then -i else i)
      && (|digits| > 1 ==> digits[0] != '0')
  {
    if i < 0 then
      var s := "-" + NatToString(-i);
      assert s[1..] == NatToString(-i);
      s
    else NatToString(i)
  }

  /** Distinct numbers have distinct decimal forms: the digits give the
      number back. */
  lemma NatToStringInjective(a: nat, b: nat)
    requires NatToString(a) == NatToString(b)
    ensures a == b
  {
    assert DecimalValue(NatToString(a)) == a;
  }

  lemma IntToStringInjective(a: int, b: int)
    requires IntToString(a) == IntToString(b)
    ensures a == b
  {
    assert IntToString(a)[0] == IntToString(b)[0];
  }

  /** The URL stored for a user's avatar, that of the file
      `avatar-{id}-su.webp`. It depends on the user id alone. */
  function AvatarUrl(id: int): string
  {
    AVATAR_URL_PREFIX + "avatar-" + IntToString(id) + "-su.webp"
  }

  /** Every avatar URL lies under the avatar directory and ends in
      `-su.webp`. */
  lemma AvatarUrlShape(id: int)
    ensures AffixOf(AVATAR_URL_PREFIX + "avatar-", AvatarUrl(id), "-su.webp")
  {
    AffixSlices(AVATAR_URL_PREFIX + "avatar-", IntToString(id), "-su.webp");
  }

  /** Different users get different avatar files, so one user's upload never
      overwrites another's. */
  lemma AvatarUrlsDistinct(a: int, b: int)
    requires a != b
    ensures AvatarUrl(a) != AvatarUrl(b)
  {
    if AvatarUrl(a) == AvatarUrl(b) {
      InfixDetermined(AVATAR_URL_PREFIX + "avatar-", IntToString(a), IntToString(b), "-su.webp");
      IntToStringInjective(a, b);
    }
  }

  /** `s` starts with `pre` and ends with `suf`, which do not overlap. */
  predicate AffixOf(pre: string, s: string, suf: string)
  {
    |pre| + |suf| <= |s| && s[..|pre|] == pre && s[|s| - |suf|..] == suf
  }

  lemma AffixSlices(pre: string, x: string, suf: string)
    ensures AffixOf(pre, pre + x + suf, suf)
  {
    var s := pre + x + suf;
    assert s[..|pre|] == pre;
    assert s[|s| - |suf|..] == suf;
  }

  /** Equal strings with the same prefix and suffix have the same middle. */
  lemma InfixDetermined(pre: string, x: string, y: string, suf: string)
    requires pre + x + suf == pre + y + suf
    ensures x == y
  {
    var s := pre + x + suf;
    assert |x| == |y|;
    forall i | 0 <= i < |x| ensures x[i] == y[i] {
      assert s[|pre| + i] == x[i];
      assert (pre + y + suf)[|pre| + i] == y[i];
    }
  }

  // ---------------------------------------------------------------------------
  // One request, specified
  // ---------------------------------------------------------------------------

  /** `bio[:160]`. */
  function TruncateBio(bio: string): (r: string)
    ensures |r| == if |bio| < BIO_MAX_LENGTH then |bio| else BIO_MAX_LENGTH
    ensures r <= bio
  {
    if |bio| <= BIO_MAX_LENGTH then bio else bio[..BIO_MAX_LENGTH]
  }

  /** A non-empty submitted username that differs from the user's own and is
      already held by another row. */
  predicate UsernameConflict(table: map<int, User>, id: int, username: Option<string>)
    requires id in table
  {
    && Truthy(username)
    && username.value != table[id].username
    && exists j :: j in table && j != id && table[j].username == username.value
  }

  /** The same rule for the email column. */
  predicate EmailConflict(table: map<int, User>, id: int, email: Option<string>)
    requires id in table
  {
    && Truthy(email)
    && Some(email.value) != table[id].email
    && exists j :: j in table && j != id && table[j].email == Some(email.value)
  }

  /** The form carries an uploaded file with a non-empty filename. */
  predicate HasAvatarUpload(form: Form)
  {
    form.avatar.Some? && form.avatar.value.File? && form.avatar.value.filename != ""
  }

  /** The row after all of the form's field assignments. */
  function ApplyForm(user: User, form: Form, newAvatar: bool, now: int): (u: User)
    ensures u.id == user.id && u.passwordHash == user.passwordHash && u.updatedAt == Some(now)
    ensures form.bio.Some? ==> u.bio == Some(TruncateBio(form.bio.value))
    ensures u.avatarUrl != user.avatarUrl ==> newAvatar && u.avatarUrl == Some(AvatarUrl(user.id))
    ensures u.username != user.username ==> form.username == Some(u.username) && u.username != ""
    ensures u.email != user.email ==> u.email.Some? && form.email == u.email && u.email.value != ""
  {
    user.(
      username := if Truthy(form.username) then form.username.value else user.username,
      email := if Truthy(form.email) then Some(form.email.value) else user.email,
      fullName := if form.fullName.Some? then form.fullName else user.fullName,
      bio := if form.bio.Some? then Some(TruncateBio(form.bio.value)) else user.bio,
      avatarUrl := if newAvatar then Some(AvatarUrl(user.id)) else user.avatarUrl,
      updatedAt := Some(now))
  }

  /** The outcome of one request: the row to commit, or the error response.
      The checks run in the source's order. */
  function ProfileUpdate(table: map<int, User>, userId: Option<int>, form: Form, decode: ImageDecoder, now: int)
    : (r: Result<User>)
    ensures r.Ok? ==> userId.Some? && userId.value in table && r.value.id == table[userId.value].id
    ensures r.Err? ==> r.error.HttpError? && r.error.status in {400, 401, 404}
  {
    if userId.None? then Err(UNAUTHORIZED)
    else if userId.value !in table then Err(USER_NOT_FOUND)
    else
      var id := userId.value;
      if UsernameConflict(table, id, form.username) then Err(USERNAME_TAKEN)
      else if EmailConflict(table, id, form.email) then Err(EMAIL_IN_USE)
      else if HasAvatarUpload(form) && decode(form.avatar.value.content).None? then Err(INVALID_IMAGE)
      else if HasAvatarUpload(form) && decode(form.avatar.value.content).value !in ALLOWED_FORMATS then Err(UNSUPPORTED_FORMAT)
      else Ok(ApplyForm(table[id], form, HasAvatarUpload(form), now))
  }

  /** The table after the request: the new row where it succeeded, the old
      table otherwise. */
  function TableAfter(table: map<int, User>, userId: Option<int>, result: Result<User>): map<int, User>
    requires result.Ok? ==> userId.Some?
  {
    if result.Ok? then table[userId.value := result.value] else table
  }

  // ---------------------------------------------------------------------------
  // What a request promises
  // ---------------------------------------------------------------------------

  /** Without an authenticated subject the answer is 401, and for an unknown
      id 404. */
  lemma UnauthorizedAndNotFound(table: map<int, User>, userId: Option<int>, form: Form, decode: ImageDecoder, now: int)
    ensures userId.None? ==> ProfileUpdate(table, userId, form, decode, now) == Err(UNAUTHORIZED)
    ensures userId.Some? && userId.value !in table ==> ProfileUpdate(table, userId, form, decode, now) == Err(USER_NOT_FOUND)
  {
  }

  /** A username held by another row is refused, whatever else the form
      holds (the username check runs before the email check). Resubmitting
      one's own username is never a conflict and changes nothing. */
  lemma UsernameRules(table: map<int, User>, id: int, form: Form, decode: ImageDecoder, now: int)
    requires id in table
    ensures UsernameConflict(table, id, form.username) ==> ProfileUpdate(table, Some(id), form, decode, now) == Err(USERNAME_TAKEN)
    ensures form.username == Some(table[id].username) ==>
      && ProfileUpdate(table, Some(id), form, decode, now) != Err(USERNAME_TAKEN)
      && (ProfileUpdate(table, Some(id), form, decode, now).Ok? ==>
            ProfileUpdate(table, Some(id), form, decode, now).value.username == table[id].username)
  {
  }

  /** The same for the email: another row's email is refused once the username
      has passed; one's own email is never a conflict. */
  lemma EmailRules(table: map<int, User>, id: int, form: Form, decode: ImageDecoder, now: int)
    requires id in table
    ensures !UsernameConflict(table, id, form.username) && EmailConflict(table, id, form.email) ==>
      ProfileUpdate(table, Some(id), form, decode, now) == Err(EMAIL_IN_USE)
    ensures form.email.Some? && Some(form.email.value) == table[id].email ==>
      && ProfileUpdate(table, Some(id), form, decode, now) != Err(EMAIL_IN_USE)
      && (ProfileUpdate(table, Some(id), form, decode, now).Ok? ==>
            ProfileUpdate(table, Some(id), form, decode, now).value.email == table[id].email)
  {
  }

  /** The avatar rules: a file that does not decode, or decodes to a format
      outside {JPEG, PNG, WEBP}, is refused with 400; an accepted one sets the
      avatar URL determined by the user id. */
  lemma AvatarRules(table: map<int, User>, id: int, form: Form, decode: ImageDecoder, now: int)
    requires ValidTable(table) && id in table
    requires !UsernameConflict(table, id, form.username) && !EmailConflict(table, id, form.email)
    requires HasAvatarUpload(form)
    ensures decode(form.avatar.value.content).None? ==> ProfileUpdate(table, Some(id), form, decode, now) == Err(INVALID_IMAGE)
    ensures decode(form.avatar.value.content).Some? && decode(form.avatar.value.content).value !in ALLOWED_FORMATS ==>
      ProfileUpdate(table, Some(id), form, decode, now) == Err(UNSUPPORTED_FORMAT)
    ensures decode(form.avatar.value.content).Some? && decode(form.avatar.value.content).value in ALLOWED_FORMATS ==>
      ProfileUpdate(table, Some(id), form, decode, now) == Ok(ApplyForm(table[id], form, true, now))
      && ProfileUpdate(table, Some(id), form, decode, now).value.avatarUrl == Some(AvatarUrl(id))
  {
  }

  /** A successful request commits every requested change: a non-empty
      username or email replaces the old one and a missing or empty one keeps
      it; a present full name replaces the old one even when empty; the bio
      becomes the first 160 characters of the submitted one; the avatar URL
      changes only with an accepted upload; the update time is `now`. The id
      and the password hash are untouched. */
  lemma SuccessCommitsForm(table: map<int, User>, id: int, form: Form, decode: ImageDecoder, now: int)
    requires ValidTable(table) && id in table
    requires ProfileUpdate(table, Some(id), form, decode, now).Ok?
    ensures var old_, new_ := table[id], ProfileUpdate(table, Some(id), form, decode, now).value;
      && new_.id == id && new_.passwordHash == old_.passwordHash
      && new_.username == (if Truthy(form.username) then form.username.value else old_.username)
      && new_.email == (if Truthy(form.email) then Some(form.email.value) else old_.email)
      && new_.fullName == (if form.fullName.Some? then form.fullName else old_.fullName)
      && (form.bio.Some? ==>
            && new_.bio.Some? && new_.bio.value <= form.bio.value
            && |new_.bio.value| == (if |form.bio.value| < 160 then |form.bio.value| else 160))
      && (form.bio.None? ==> new_.bio == old_.bio)
      && new_.avatarUrl == (if HasAvatarUpload(form) then Some(AvatarUrl(id)) else old_.avatarUrl)
      && new_.updatedAt == Some(now)
  {
  }

  /** A request succeeds exactly when none of the checks refuses it. */
  lemma SuccessIff(table: map<int, User>, id: int, form: Form, decode: ImageDecoder, now: int)
    requires id in table
    ensures ProfileUpdate(table, Some(id), form, decode, now).Ok? <==>
      && !UsernameConflict(table, id, form.username)
      && !EmailConflict(table, id, form.email)
      && (HasAvatarUpload(form) ==>
            decode(form.avatar.value.content).Some? && decode(form.avatar.value.content).value in ALLOWED_FORMATS)
  {
  }

  /** Every request keeps the table valid: ids stay under their keys, and
      usernames and emails stay unique. */
  lemma UpdateKeepsTableValid(table: map<int, User>, userId: Option<int>, form: Form, decode: ImageDecoder, now: int)
    requires ValidTable(table)
    ensures ValidTable(TableAfter(table, userId, ProfileUpdate(table, userId, form, decode, now)))
  {
    var r := ProfileUpdate(table, userId, form, decode, now);
    if r.Ok? {
      var id := userId.value;
      var t := table[id := r.value];
      var u := r.value;
      assert !UsernameConflict(table, id, form.username);
      assert !EmailConflict(table, id, form.email);
      forall a, b | a in t && b in t && a != b
        ensures t[a].username != t[b].username
      {
        if a == id {
          assert t[b] == table[b];
        } else if b == id {
          assert t[a] == table[a];
        }
      }
      forall a, b | a in t && b in t && a != b && t[a].email.Some?
        ensures t[a].email != t[b].email
      {
        if a == id {
          assert t[b] == table[b];
        } else if b == id {
          assert t[a] == table[a];
        }
      }
    }
  }

  // ---------------------------------------------------------------------------
  // One request, step by step
  // ---------------------------------------------------------------------------

  /** The committed user table. */
  class UserTable {
    var rows: map<int, User>

    ghost predicate Valid()
      reads this
    {
      ValidTable(rows)
    }

    constructor (initial: map<int, User>)
      requires ValidTable(initial)
      ensures Valid() && rows == initial
    {
      rows := initial;
    }

    /** The uniqueness query: does a row other than `id` hold `username`? */
    function UsernameHeldByOther(id: int, username: string): (b: bool)
      reads this
      ensures id in rows && username != "" && username != rows[id].username ==>
        (b <==> UsernameConflict(rows, id, Some(username)))
      ensures Valid() && id in rows && b ==> rows[id].username != username
    {
      exists j :: j in rows && j != id && rows[j].username == username
    }

    /** The same query for `email`. */
    function EmailHeldByOther(id: int, email: string): (b: bool)
      reads this
      ensures id in rows && email != "" && Some(email) != rows[id].email ==>
        (b <==> EmailConflict(rows, id, Some(email)))
      ensures Valid() && id in rows && b ==> rows[id].email != Some(email)
    {
      exists j :: j in rows && j != id && rows[j].email == Some(email)
    }

    /** `db.commit()`: the pending row replaces the stored one. The caller
        has checked uniqueness beforehand, so the table stays valid. */
    method Commit(row: User)
      requires row.id in rows
      requires ValidTable(rows[row.id := row])
      modifies this
      ensures rows == old(rows)[row.id := row]
      ensures Valid()
    {
      rows := rows[row.id := row];
    }

    /** `update_profile`. Every error return happens before the commit, so a
        refused request leaves the table as it was, even though the pending
        row may already have been partly assigned. */
    method UpdateProfile(userId: Option<int>, form: Form, decode: ImageDecoder, now: int) returns (r: Result<string>)
      requires Valid()
      modifies this
      ensures Valid()
      ensures var spec := ProfileUpdate(old(rows), userId, form, decode, now);
        && (spec.Err? ==> r == Err(spec.error) && rows == old(rows))
        && (spec.Ok? ==> r == Ok(SUCCESS_MESSAGE) && rows == old(rows)[userId.value := spec.value])
    {
      UpdateKeepsTableValid(rows, userId, form, decode, now);
      if userId.None? {
        return Err(UNAUTHORIZED);
      }
      var id := userId.value;
      if id !in rows {
        return Err(USER_NOT_FOUND);
      }
      var user := rows[id];
      if Truthy(form.username) && form.username.value != user.username {
        if UsernameHeldByOther(id, form.username.value) {
          return Err(USERNAME_TAKEN);
        }
        user := user.(username := form.username.value);
      }
      if Truthy(form.email) && Some(form.email.value) != user.email {
        if EmailHeldByOther(id, form.email.value) {
          return Err(EMAIL_IN_USE);
        }
        user := user.(email := Some(form.email.value));
      }
      if form.fullName.Some? {
        user := user.(fullName := form.fullName);
      }
      if form.bio.Some? {
        user := user.(bio := Some(TruncateBio(form.bio.value)));
      }
      if HasAvatarUpload(form) {
        var format := decode(form.avatar.value.content);
        if format.None? {
          return Err(INVALID_IMAGE);
        }
        if format.value !in ALLOWED_FORMATS {
          return Err(UNSUPPORTED_FORMAT);
        }
        user := user.(avatarUrl := Some(AvatarUrl(user.id)));
      }
      user := user.(updatedAt := Some(now));
      Commit(user);
      return Ok(SUCCESS_MESSAGE);
    }
  }
}
