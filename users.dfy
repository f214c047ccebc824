/** The `User` table that registration writes and login reads, with the two
    Prisma calls the handlers make on it. */
module Users {
  import opened Wrappers
  import opened Js

  /** Record identifiers, assigned by the table when a row is created. */
  type Id = nat

  /** A row of the `User` table as `prisma.user.create` returns it. */
  datatype User = User(id: Id, email: string, hashedPassword: string)

  // The body both authentication routes read, and the check they share.

  /** `const { email, password } = body`. */
  const CredentialKeys: seq<string> := ["email", "password"]

  const MissingCredentialsText := "缺少邮箱或密码"

  /** `!email || !password` on the destructured fields. */
  predicate MissingCredential(fields: seq<JsValue>)
    requires |fields| == 2
  {
    !Truthy(fields[0]) || !Truthy(fields[1])
  }

  /** The `@unique` constraint on `email`: at most one row per address. */
  ghost predicate UniqueEmails(users: seq<User>) {
    forall i, j :: 0 <= i < j < |users| ==> users[i].email != users[j].email
  }

  /** `prisma.user.findUnique({ where: { email } })` over the table's rows. */
  function FindByEmail(users: seq<User>, email: string): (r: Option<User>)
    ensures r.Some? ==> r.value in users && r.value.email == email
    ensures r.None? <==> forall u :: u in users ==> u.email != email
  {
    if users == [] then None
    else if users[0].email == email then Some(users[0])
    else FindByEmail(users[1..], email)
  }

  /** `findUnique({ where: { email } })` with the email taken from a request
      body: `fault` is what the database raises, if anything, and an email
      that is not a string fails Prisma's query validation. */
  function FindUnique(users: seq<User>, email: JsValue, fault: Option<JsValue>): (r: Result<Option<User>, JsValue>)
    ensures r.Success? <==> fault.None? && email.Str?
    ensures r.Success? ==> r.value == FindByEmail(users, email.s)
  {
    if fault.Some? then Failure(fault.value)
    else if !email.Str? then Failure(PrismaValidationError)
    else Success(FindByEmail(users, email.s))
  }

  /** Under the unique constraint the lookup finds the one row that has the
      address. */
  lemma {:induction false} FindByEmailFindsTheRow(users: seq<User>, u: User)
    requires UniqueEmails(users)
    requires u in users
    ensures FindByEmail(users, u.email) == Some(u)
  {
    if users[0] != u {
      assert u in users[1..];
      assert UniqueEmails(users[1..]) by {
        forall i, j | 0 <= i < j < |users| - 1
          ensures users[1..][i].email != users[1..][j].email
        {
          assert users[1..][i] == users[i + 1] && users[1..][j] == users[j + 1];
        }
      }
      var k :| 0 <= k < |users| && users[k] == u;
      assert users[0].email != u.email;
      FindByEmailFindsTheRow(users[1..], u);
    }
  }

  /** The `User` table. Rows are only ever appended; `nextId` is the identifier
      the database hands out next. */
  class UserTable {
    var users: seq<User>
    var nextId: Id

    ghost predicate Valid()
      reads this
    {
      && UniqueEmails(users)
      && forall u :: u in users ==> u.id < nextId
    }

    constructor ()
      ensures Valid() && users == [] && nextId == 0
    {
      users := [];
      nextId := 0;
    }

    /** `prisma.user.create({ data: { email, hashedPassword } })`. `fault` is
        what the database raises for reasons outside this model (a lost
        connection, a concurrent write); otherwise the unique constraint on
        `email` is enforced with a P2002 error, and a new row is appended. */
    method Create(email: string, hashedPassword: string, fault: Option<JsValue>)
      returns (r: Result<User, JsValue>)
      requires Valid()
      modifies this
      ensures Valid()
      ensures fault.Some? ==> r == Failure(fault.value)
      ensures fault.None? && FindByEmail(old(users), email).Some? ==>
                r == Failure(PrismaUniqueViolation("email"))
      ensures r.Failure? ==> users == old(users) && nextId == old(nextId)
      ensures fault.None? && FindByEmail(old(users), email).None? ==>
                && r == Success(User(old(nextId), email, hashedPassword))
                && users == old(users) + [r.value]
                && nextId == old(nextId) + 1
    {
      if fault.Some? {
        return Failure(fault.value);
      }
      if FindByEmail(users, email).Some? {
        return Failure(PrismaUniqueViolation("email"));
      }
      var user := User(nextId, email, hashedPassword);
      users := users + [user];
      nextId := nextId + 1;
      r := Success(user);
    }
  }
}
