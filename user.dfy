/** Users and their manager (accounts/models/user.py): creating users with
    a normalised email and one auth token each, the superuser flag rules,
    the e-mail verification flag, `full_name` and the avatar upload path. */
module Users {
  import opened Wrappers
  import Strings
  import opened PyValues

  /** The email with the part after its last '@' lowercased, as
      `normalize_email` rebuilds it from `rsplit("@", 1)`. */
  function LowerDomain(s: string): (r: string)
    ensures |r| == |s|
    ensures '@' !in s ==> r == s
    ensures '@' in s ==>
      var k := Strings.LastIndexOf(s, '@').value;
      r[..k] == s[..k] && r[k] == '@' && r[k + 1..] == Strings.Lower(s[k + 1..])
  {
    match Strings.LastIndexOf(s, '@')
    case None => s
    case Some(k) => s[..k] + "@" + Strings.Lower(s[k + 1..])
  }

  /** `BaseUserManager.normalize_email`: the email is stripped and split at
      its last '@'; the domain part is lowercased. An email without '@' is
      returned as it was given, unstripped. */
  function NormalizeEmail(email: string): (r: string)
    ensures '@' !in Strings.Strip(email) ==> r == email
    ensures '@' in Strings.Strip(email) ==> r == LowerDomain(Strings.Strip(email))
  {
    var s := Strings.Strip(email);
    if '@' in s then LowerDomain(s) else email
  }

  /** A character that is not whitespace stays so under `LowerChar`, and no
      character becomes '@'. */
  lemma LowerCharKeeps(c: char)
    ensures Strings.IsSpace(Strings.LowerChar(c)) == Strings.IsSpace(c)
    ensures Strings.LowerChar(c) == '@' <==> c == '@'
  {
  }

  /** Lowercasing the domain keeps both ends free of whitespace. */
  lemma LowerDomainStripped(s: string)
    requires Strings.IsStripped(s) && '@' in s
    ensures Strings.IsStripped(LowerDomain(s))
  {
    var r := LowerDomain(s);
    var k := Strings.LastIndexOf(s, '@').value;
    var domain := s[k + 1..];
    if k > 0 {
      assert r[0] == r[..k][0] == s[..k][0] == s[0];
    }
    if |domain| > 0 {
      LowerCharKeeps(domain[|domain| - 1]);
      assert r[|r| - 1] == r[k + 1..][|domain| - 1] == Strings.LowerChar(domain[|domain| - 1]);
    }
  }

  /** The domain, once lowercased, is lowercased already, and the last '@'
      stays where it was. */
  lemma LowerDomainIdempotent(s: string)
    requires '@' in s
    ensures '@' in LowerDomain(s)
    ensures LowerDomain(LowerDomain(s)) == LowerDomain(s)
  {
    var r := LowerDomain(s);
    var k := Strings.LastIndexOf(s, '@').value;
    var domain := s[k + 1..];
    assert r[k] == '@';
    assert '@' !in r[k + 1..] by {
      forall j | 0 <= j < |domain| ensures Strings.Lower(domain)[j] != '@' {
        LowerCharKeeps(domain[j]);
      }
    }
    var k' := Strings.LastIndexOf(r, '@').value;
    assert k' == k;
    Strings.LowerIdempotent(domain);
    assert r == r[..k] + "@" + Strings.Lower(r[k + 1..]);
  }

  /** Normalising twice is normalising once. */
  lemma NormalizeEmailIdempotent(email: string)
    ensures NormalizeEmail(NormalizeEmail(email)) == NormalizeEmail(email)
  {
    var s := Strings.Strip(email);
    if '@' in s {
      var r := LowerDomain(s);
      LowerDomainStripped(s);
      Strings.StripStripped(r);
      LowerDomainIdempotent(s);
    }
  }

  /** A stripped email with an '@' is normalised by its domain alone. */
  lemma NormalizeStripped(e: string)
    requires Strings.IsStripped(e) && '@' in e
    ensures NormalizeEmail(e) == LowerDomain(e)
  {
    Strings.StripStripped(e);
  }

  /** The part after the last '@' is the part after the only '@'. */
  lemma LowerDomainSplit(local: string, domain: string)
    requires '@' !in domain
    ensures LowerDomain(local + "@" + domain) == local + "@" + Strings.Lower(domain)
  {
    var e := local + "@" + domain;
    assert e[|local|] == '@';
    assert e[|local| + 1..] == domain;
    var k := Strings.LastIndexOf(e, '@').value;
    assert k == |local|;
    assert e[..k] == local;
  }

  /** `normalize_email` on a stripped email lowercases what follows its last
      '@' and keeps the rest. */
  lemma NormalizeEmailLowersDomain(local: string, domain: string)
    requires '@' !in domain
    requires Strings.IsStripped(local + "@" + domain)
    ensures NormalizeEmail(local + "@" + domain) == local + "@" + Strings.Lower(domain)
  {
    var e := local + "@" + domain;
    assert '@' in e by {
      assert e[|local|] == '@';
    }
    NormalizeStripped(e);
    LowerDomainSplit(local, domain);
  }

  /** `full_name`: first and last name joined by a space, surrounding
      whitespace removed. */
  function FullName(firstName: string, lastName: string): (r: string)
    ensures Strings.IsStripped(r) && |r| <= |firstName| + 1 + |lastName|
    ensures var joined := firstName + " " + lastName;
      exists lead: nat :: lead + |r| <= |joined| && r == joined[lead..lead + |r|]
        && Strings.AllSpace(joined[..lead]) && Strings.AllSpace(joined[lead + |r|..])
  {
    var joined := firstName + " " + lastName;
    var r := Strings.Strip(joined);
    var lead := Strings.SpaceRunEnd(joined, 0);
    assert lead + |r| <= |joined| && r == joined[lead..lead + |r|];
    r
  }

  /** Names without surrounding whitespace are joined by exactly one space. */
  lemma FullNameOfStrippedNames(firstName: string, lastName: string)
    requires firstName != [] && lastName != []
    requires Strings.IsStripped(firstName) && Strings.IsStripped(lastName)
    ensures FullName(firstName, lastName) == firstName + " " + lastName
  {
    var joined := firstName + " " + lastName;
    assert joined[0] == firstName[0] && joined[|joined| - 1] == lastName[|lastName| - 1];
    Strings.StripStripped(joined);
  }

  /** A missing first name leaves no leading space. */
  lemma FullNameWithoutFirstName(lastName: string)
    requires Strings.IsStripped(lastName)
    ensures FullName("", lastName) == lastName
  {
    assert "" + " " + lastName == [' '] + lastName;
    Strings.StripLeadingSpace(' ', lastName);
  }

  /** `user_directory_path`: the upload path of an avatar. */
  function UserDirectoryPath(email: string, filename: string): (r: string)
    ensures |r| == 13 + |email| + 1 + |filename|
    ensures r[..13] == "avatars/user/" && r[13..13 + |email|] == email
    ensures r[13 + |email|] == '/' && r[14 + |email|..] == filename
  {
    "avatars/user/" + email + "/" + filename
  }

  /** Two users whose emails contain no '/' never share an upload path. */
  lemma UserDirectoryPathInjective(e1: string, f1: string, e2: string, f2: string)
    requires '/' !in e1 && '/' !in e2
    requires UserDirectoryPath(e1, f1) == UserDirectoryPath(e2, f2)
    ensures e1 == e2 && f1 == f2
  {
    assert |e1| == |e2|;
  }

  /** `extra_fields.setdefault(key, value)`. */
  function SetDefault(fields: map<string, PyValue>, key: string, value: PyValue): (r: map<string, PyValue>)
    ensures key in r && r.Keys == fields.Keys + {key}
    ensures key in fields ==> r == fields
    ensures key !in fields ==> r[key] == value && forall k :: k in fields ==> k in r && r[k] == fields[k]
  {
    if key in fields then fields else fields[key := value]
  }

  /** The keyword arguments `User(...)` accepts besides `email`: the
      model's concrete fields (its own, the tracking mixin's, the
      authentication base's and the permissions mixin's) and `pk`. `password`
      is absent because the manager takes it as a parameter of its own; the
      many-to-many fields `groups` and `user_permissions` cannot be assigned
      directly. Any other key makes the model's constructor raise a
      `TypeError`. */
  const UserFieldNames: set<string> := {
    "id", "pk", "last_login", "is_superuser", "first_name", "last_name",
    "is_staff", "has_verified_email", "avatar", "birthdate", "gender", "about",
    "is_active", "created_at", "deleted_at"
  }

  /** A boolean field's value: the keyword argument when it is given,
      otherwise the field's default. */
  function Flag(fields: map<string, PyValue>, key: string, default: bool): (r: bool)
    ensures key !in fields ==> r == default
    ensures key in fields ==> (r <==> Truthy(fields[key]))
  {
    if key in fields then Truthy(fields[key]) else default
  }

  /** A user row. `fields` holds the keyword arguments the user was built
      with besides the email (`is_superuser` among them). */
  class User {
    var email: string
    var fields: map<string, PyValue>
    var hasVerifiedEmail: bool
    var isActive: bool
    var isStaff: bool

    /** `User(email=email, **extra_fields)`: the flags given as keywords
        are taken, the others get the model defaults (`has_verified_email`
        false, `is_active` true, `is_staff` false). */
    constructor (email: string, fields: map<string, PyValue>)
      requires fields.Keys <= UserFieldNames
      ensures this.email == email && this.fields == fields
      ensures hasVerifiedEmail == Flag(fields, "has_verified_email", false)
      ensures isActive == Flag(fields, "is_active", true)
      ensures isStaff == Flag(fields, "is_staff", false)
      ensures "has_verified_email" !in fields ==> !hasVerifiedEmail
      ensures "is_active" !in fields ==> isActive
      ensures "is_staff" !in fields ==> !isStaff
    {
      this.email := email;
      this.fields := fields;
      hasVerifiedEmail := Flag(fields, "has_verified_email", false);
      isActive := Flag(fields, "is_active", true);
      isStaff := Flag(fields, "is_staff", false);
    }

    /** `verify_email()`: sets the flag and nothing else. */
    method VerifyEmail()
      modifies this
      ensures hasVerifiedEmail
      ensures email == old(email) && fields == old(fields)
      ensures isActive == old(isActive) && isStaff == old(isStaff)
    {
      hasVerifiedEmail := true;
    }

    /** `clean()`: the inherited `AbstractBaseUser.clean` first applies
        Unicode NFKC normalisation to the email (the Unicode tables are not
        part of this model, so that step is the parameter `nfkc`), then the
        email is replaced by its normal form. */
    method Clean(nfkc: string -> string)
      modifies this
      ensures email == NormalizeEmail(nfkc(old(email)))
      ensures fields == old(fields) && hasVerifiedEmail == old(hasVerifiedEmail)
      ensures isActive == old(isActive) && isStaff == old(isStaff)
    {
      email := nfkc(email);
      email := NormalizeEmail(email);
    }

    /** `is_superuser` as the user was built with it. */
    function IsSuperuser(): PyValue
      reads this
    {
      if "is_superuser" in fields then fields["is_superuser"] else PyBool(false)
    }
  }

  datatype UserError =
    | EmailNotSet            // ValueError("The given email must be set.")
    | SuperuserFlagNotTrue   // ValueError("Superuser must have is_superuser=True.")
    | EmailTaken             // the unique constraint on `email`
    | UnexpectedField        // TypeError: a keyword `User(...)` does not accept

  /** The `user` table and the auth tokens, with the manager methods that
      create users. */
  class UserManager {
    var users: seq<User>
    /** `Token.user` of every token, in creation order. */
    var tokenOwners: seq<User>

    /** Emails are unique, and every user owns exactly one token. */
    predicate Valid()
      reads this, users
    {
      && (forall i, j :: 0 <= i < j < |users| ==> users[i] != users[j] && users[i].email != users[j].email)
      && tokenOwners == users
    }

    function Emails(): set<string>
      reads this, users
    {
      set u | u in users :: u.email
    }

    constructor ()
      ensures Valid() && users == [] && tokenOwners == []
    {
      users := [];
      tokenOwners := [];
    }

    /** `_create_user`: refuses an empty email, normalises it, builds the
        user (a keyword that is not a field of the model is refused), saves it
        (the unique email constraint applies) and creates its token. */
    method CreateUserWith(email: string, password: string, extraFields: map<string, PyValue>)
      returns (r: Result<User, UserError>)
      requires Valid()
      modifies this
      ensures Valid()
      ensures email == [] ==> r == Err(EmailNotSet)
      ensures email != [] && !(extraFields.Keys <= UserFieldNames) ==> r == Err(UnexpectedField)
      ensures r.Ok? <==>
        email != [] && extraFields.Keys <= UserFieldNames && NormalizeEmail(email) !in old(Emails())
      ensures r.Err? ==> users == old(users) && tokenOwners == old(tokenOwners)
      ensures r.Ok? ==>
        && fresh(r.value)
        && r.value.email == NormalizeEmail(email) && r.value.fields == extraFields
        && r.value.hasVerifiedEmail == Flag(extraFields, "has_verified_email", false)
        && r.value.isActive == Flag(extraFields, "is_active", true)
        && r.value.isStaff == Flag(extraFields, "is_staff", false)
        && users == old(users) + [r.value]
        && tokenOwners == old(tokenOwners) + [r.value]
    {
      if email == [] {
        return Err(EmailNotSet);
      }
      var normalized := NormalizeEmail(email);
      if !(extraFields.Keys <= UserFieldNames) {
        return Err(UnexpectedField);
      }
      if normalized in Emails() {
        return Err(EmailTaken);
      }
      var user := new User(normalized, extraFields);
      users := users + [user];
      tokenOwners := tokenOwners + [user];
      r := Ok(user);
    }

    /** `create_user`: `is_superuser` defaults to false. */
    method CreateUser(email: string, password: string, extraFields: map<string, PyValue>)
      returns (r: Result<User, UserError>)
      requires Valid()
      modifies this
      ensures Valid()
      ensures email == [] ==> r == Err(EmailNotSet)
      ensures email != [] && !(extraFields.Keys <= UserFieldNames) ==> r == Err(UnexpectedField)
      ensures r.Ok? <==>
        email != [] && extraFields.Keys <= UserFieldNames && NormalizeEmail(email) !in old(Emails())
      ensures r.Err? ==> users == old(users) && tokenOwners == old(tokenOwners)
      ensures r.Ok? ==>
        && fresh(r.value) && users == old(users) + [r.value]
        && tokenOwners == old(tokenOwners) + [r.value]
        && r.value.email == NormalizeEmail(email)
        && r.value.hasVerifiedEmail == Flag(extraFields, "has_verified_email", false)
        && r.value.isActive == Flag(extraFields, "is_active", true)
        && r.value.isStaff == Flag(extraFields, "is_staff", false)
        && r.value.IsSuperuser()
           == (if "is_superuser" in extraFields then extraFields["is_superuser"] else PyBool(false))
    {
      var fields := SetDefault(extraFields, "is_superuser", PyBool(false));
      r := CreateUserWith(email, password, fields);
    }

    /** `create_superuser`: `is_superuser` defaults to true, and anything
        but the value `True` itself is refused. */
    method CreateSuperuser(email: string, password: string, extraFields: map<string, PyValue>)
      returns (r: Result<User, UserError>)
      requires Valid()
      modifies this
      ensures Valid()
      ensures "is_superuser" in extraFields && extraFields["is_superuser"] != PyBool(true) ==>
        r == Err(SuperuserFlagNotTrue) && users == old(users)
      ensures ("is_superuser" !in extraFields || extraFields["is_superuser"] == PyBool(true)) ==>
        && (email == [] ==> r == Err(EmailNotSet))
        && (email != [] && !(extraFields.Keys <= UserFieldNames) ==> r == Err(UnexpectedField))
      ensures r.Ok? <==>
        && ("is_superuser" !in extraFields || extraFields["is_superuser"] == PyBool(true))
        && email != [] && extraFields.Keys <= UserFieldNames && NormalizeEmail(email) !in old(Emails())
      ensures r.Err? ==> users == old(users) && tokenOwners == old(tokenOwners)
      ensures r.Ok? ==>
        && fresh(r.value) && users == old(users) + [r.value]
        && tokenOwners == old(tokenOwners) + [r.value]
        && r.value.email == NormalizeEmail(email)
        && r.value.hasVerifiedEmail == Flag(extraFields, "has_verified_email", false)
        && r.value.isActive == Flag(extraFields, "is_active", true)
        && r.value.isStaff == Flag(extraFields, "is_staff", false)
        && r.value.IsSuperuser() == PyBool(true)
    {
      var fields := SetDefault(extraFields, "is_superuser", PyBool(true));
      if fields["is_superuser"] != PyBool(true) {
        return Err(SuperuserFlagNotTrue);
      }
      r := CreateUserWith(email, password, fields);
    }
  }
}
