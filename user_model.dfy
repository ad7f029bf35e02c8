/**
 * The `user` table of src/models/userModel.ts: the record type `UserAttributes`, the
 * column rules Sequelize enforces when a row is created, and the store lookups the
 * controllers use. The table is a map from primary key (`id`) to record.
 */
module UserModel {
  import opened Wrappers

  datatype User = User(
    id: string,
    email: string,
    password: string,
    firstName: string,
    lastName: string,
    role: string)

  /** A row read with `attributes: { exclude: ['password'] }`. */
  datatype PublicUser = PublicUser(
    id: string,
    email: string,
    firstName: string,
    lastName: string,
    role: string)

  function WithoutPassword(u: User): PublicUser {
    PublicUser(u.id, u.email, u.firstName, u.lastName, u.role)
  }

  /** Two rows look the same without their password column iff they differ at most in it. */
  lemma WithoutPasswordForgetsOnlyPassword(u: User, v: User)
    ensures WithoutPassword(u) == WithoutPassword(v) <==> u == v.(password := u.password)
  {
  }

  type Table = map<string, User>

  /** The characters the JavaScript class `\s` matches. */
  predicate IsJsWhitespace(c: char) {
    || c in {' ', '\t', '\n', '\U{000B}', '\U{000C}', '\r', '\U{00A0}', '\U{1680}',
             '\U{2028}', '\U{2029}', '\U{202F}', '\U{205F}', '\U{3000}', '\U{FEFF}'}
    || '\U{2000}' <= c <= '\U{200A}'
  }

  /** The anchored pattern `^[\s\t\r\n]*$`: every character is JavaScript whitespace. */
  predicate WhitespaceOnly(s: string)
    decreases |s|
  {
    |s| == 0 || (IsJsWhitespace(s[0]) && WhitespaceOnly(s[1..]))
  }

  /** Sequelize's `notEmpty` validator: the value does not match `^[\s\t\r\n]*$`. */
  predicate NotEmpty(s: string) {
    !WhitespaceOnly(s)
  }

  /**
   * `notEmpty` accepts a string iff some character of it is not whitespace; in
   * particular it refuses the empty string.
   */
  lemma {:induction false} NotEmptyIff(s: string)
    ensures NotEmpty(s) <==> exists i :: 0 <= i < |s| && !IsJsWhitespace(s[i])
    ensures NotEmpty(s) ==> s != ""
    decreases |s|
  {
    if |s| > 0 {
      NotEmptyIff(s[1..]);
      if NotEmpty(s[1..]) {
        var i :| 0 <= i < |s[1..]| && !IsJsWhitespace(s[1..][i]);
        assert s[i + 1] == s[1..][i];
      } else if exists i :: 0 <= i < |s| && !IsJsWhitespace(s[i]) {
        var i :| 0 <= i < |s| && !IsJsWhitespace(s[i]);
        if i > 0 { assert s[1..][i - 1] == s[i]; }
      }
    }
  }

  const InvalidEmailMessage := "Please provide a valid email"
  const EmptyPasswordMessage := "Provide a password"
  const EmptyFirstNameMessage := "Provide your first name"
  const EmptyLastNameMessage := "Provide your last name"

  /** The column rules every stored row satisfies; `isEmail` is the address-format check. */
  predicate RowValid(u: User, isEmail: string -> bool) {
    isEmail(u.email) && NotEmpty(u.password) && NotEmpty(u.firstName) && NotEmpty(u.lastName)
  }

  /**
   * The messages of the validators a row fails on `create`, in column order
   * (email, password, firstName, lastName); `role` has no rule.
   */
  function ColumnViolations(u: User, isEmail: string -> bool): (r: seq<string>)
    ensures r == [] <==> RowValid(u, isEmail)
    ensures !isEmail(u.email) ==> |r| > 0 && r[0] == InvalidEmailMessage
    ensures r != [] && isEmail(u.email) && NotEmpty(u.password) && NotEmpty(u.firstName) ==> r == [EmptyLastNameMessage]
  {
    (if isEmail(u.email) then [] else [InvalidEmailMessage])
    + (if NotEmpty(u.password) then [] else [EmptyPasswordMessage])
    + (if NotEmpty(u.firstName) then [] else [EmptyFirstNameMessage])
    + (if NotEmpty(u.lastName) then [] else [EmptyLastNameMessage])
  }

  /** Every row is stored under its own id (the primary key). */
  ghost predicate KeysMatch(t: Table) {
    forall id :: id in t ==> t[id].id == id
  }

  /** The `unique` constraint on `email`. */
  ghost predicate EmailsUnique(t: Table) {
    forall u, v :: u in t.Values && v in t.Values && u.email == v.email ==> u == v
  }

  ghost predicate TableInvariant(t: Table, isEmail: string -> bool) {
    && KeysMatch(t)
    && EmailsUnique(t)
    && forall id :: id in t ==> RowValid(t[id], isEmail)
  }

  /** No two stored rows share an id, and no two share an email. */
  lemma InvariantMeansKeys(t: Table, isEmail: string -> bool, a: string, b: string)
    requires TableInvariant(t, isEmail)
    requires a in t && b in t
    ensures t[a].id == t[b].id ==> a == b
    ensures t[a].email == t[b].email ==> a == b
  {
  }

  predicate HasEmail(t: Table, email: string) {
    exists id :: id in t && t[id].email == email
  }

  /** `UserInstance.findOne({ where: { email } })`. */
  function FindByEmail(t: Table, email: string): (r: Option<User>)
    requires EmailsUnique(t)
    ensures r.Some? <==> HasEmail(t, email)
    ensures r.Some? ==> r.value in t.Values && r.value.email == email
    ensures r.Some? && KeysMatch(t) ==> r.value.id in t && t[r.value.id] == r.value
  {
    if HasEmail(t, email) then
      var id :| id in t && t[id].email == email;
      assert t[id] in t.Values;
      var u :| u in t.Values && u.email == email;
      Some(u)
    else
      None
  }

  /** `UserInstance.findOne({ where: { id } })`. */
  function FindById(t: Table, id: string): (r: Option<User>)
    requires KeysMatch(t)
    ensures r.Some? <==> id in t
    ensures r.Some? ==> r.value == t[id] && r.value.id == id
  {
    if id in t then Some(t[id]) else None
  }

  /** Adding a valid row whose id and email are both new keeps the invariant. */
  lemma InsertKeepsInvariant(t: Table, isEmail: string -> bool, u: User)
    requires TableInvariant(t, isEmail)
    requires u.id !in t && !HasEmail(t, u.email) && RowValid(u, isEmail)
    ensures TableInvariant(t[u.id := u], isEmail)
    ensures FindByEmail(t[u.id := u], u.email) == Some(u)
  {
    var t' := t[u.id := u];
    forall v, w | v in t'.Values && w in t'.Values && v.email == w.email
      ensures v == w
    {
      var i :| i in t' && t'[i] == v;
      var j :| j in t' && t'[j] == w;
      if i != u.id && j != u.id {
        assert v in t.Values && w in t.Values;
      }
    }
    assert t'[u.id] == u;
    assert u in t'.Values;
  }

  /** A row stored under a new key joins the rows already there. */
  lemma ValuesAfterInsert(t: Table, k: string, u: User)
    requires k !in t
    ensures t[k := u].Values == t.Values + {u}
  {
    var t' := t[k := u];
    forall v | v in t'.Values ensures v in t.Values + {u} {
      var i :| i in t' && t'[i] == v;
      if i != k { assert t[i] == v; }
    }
    forall v | v in t.Values ensures v in t'.Values {
      var i :| i in t && t[i] == v;
      assert t'[i] == v;
    }
    assert t'[k] == u;
  }

  /** Removing a row keeps the invariant. */
  lemma DestroyKeepsInvariant(t: Table, isEmail: string -> bool, id: string)
    requires TableInvariant(t, isEmail)
    ensures TableInvariant(t - {id}, isEmail)
  {
    var t' := t - {id};
    forall v, w | v in t'.Values && w in t'.Values && v.email == w.email
      ensures v == w
    {
      var i :| i in t' && t'[i] == v;
      var j :| j in t' && t'[j] == w;
      assert v in t.Values && w in t.Values;
    }
  }

  /** `findAndCountAll` counts rows; since each row is stored under its own id, no two rows coincide. */
  lemma {:induction false} RowCount(t: Table)
    requires KeysMatch(t)
    ensures |t.Values| == |t|
    decreases |t|
  {
    if |t| > 0 {
      var k :| k in t;
      var t' := t - {k};
      assert KeysMatch(t');
      RowCount(t');
      assert t'.Values == t.Values - {t[k]} by {
        forall v | v in t.Values - {t[k]} ensures v in t'.Values {
          var i :| i in t && t[i] == v;
          assert i != k;
        }
        forall v | v in t'.Values ensures v in t.Values - {t[k]} {
          var i :| i in t' && t'[i] == v;
          assert v.id == i;
        }
      }
      assert t.Keys == t'.Keys + {k};
    }
  }
}
