/** `app/api/products/route.ts`: the product endpoints, which use the
    resolved identity to scope every row they create or return. */
module Products {
  import opened Wrappers
  import opened Js
  import opened Http
  import opened Users
  import Auth
  import Jwt

  /** A row of the `Product` table. The six fields taken from the request
      body are kept as the JSON values they arrived as; `userId` is the
      owner, `createdAt` the time of the insert. */
  datatype Product = Product(
    id: nat,
    name: JsValue,
    sku: JsValue,
    unit: JsValue,
    price: JsValue,
    cost: JsValue,
    barcode: JsValue,
    userId: Id,
    createdAt: nat)

  /** The JSON a product response carries: one row or a list. */
  datatype ProductJson = One(product: Product) | Many(products: seq<Product>)

  const UnauthorizedText := "未授权访问"
  const MissingFieldsText := "缺少必填字段"
  const DuplicateSkuText := "该SKU已存在，请使用其他SKU"

  /** `const { name, sku, unit, price, cost, barcode } = body`. */
  const Keys: seq<string> := ["name", "sku", "unit", "price", "cost", "barcode"]

  /** `isPrismaP2002Error(error)`. */
  predicate IsPrismaP2002Error(error: JsValue)
    ensures IsPrismaP2002Error(error) <==>
              error.Obj? && "code" in error.props && error.props["code"] == Str("P2002")
  {
    && TypeOf(error) == "object"
    && error != Null
    && HasProperty(error, "code")
    && Js.Get(error, "code") == Str("P2002")
  }

  /** The `catch` block of `POST`. */
  function CatchPost(error: JsValue): Response<ProductJson> {
    if IsPrismaP2002Error(error) then Plain(409, DuplicateSkuText) else Plain(500, InternalErrorText)
  }

  /** `!name || !sku || !unit` on the destructured fields. */
  predicate MissingField(fields: seq<JsValue>)
    requires |fields| == 6
  {
    !Truthy(fields[0]) || !Truthy(fields[1]) || !Truthy(fields[2])
  }

  /** The row `prisma.product.create` inserts for this body and owner. */
  function NewProduct(id: nat, fields: seq<JsValue>, owner: Id, now: nat): Product
    requires |fields| == 6
  {
    Product(id, fields[0], fields[1], fields[2], fields[3], fields[4], fields[5], owner, now)
  }

  // GET: the caller's rows, newest first.

  /** `where: { userId }`: every row of the owner, as often as the table
      holds it, and no other row. */
  function OwnedBy(rows: seq<Product>, owner: Id): (r: seq<Product>)
    ensures forall p :: multiset(r)[p] == if p.userId == owner then multiset(rows)[p] else 0
    ensures forall p :: p in r <==> p in rows && p.userId == owner
  {
    if rows == [] then []
    else
      assert rows == [rows[0]] + rows[1..];
      if rows[0].userId == owner then [rows[0]] + OwnedBy(rows[1..], owner)
      else OwnedBy(rows[1..], owner)
  }

  /** `orderBy: { createdAt: 'desc' }`. */
  ghost predicate NewestFirst(s: seq<Product>) {
    forall i, j :: 0 <= i < j < |s| ==> s[i].createdAt >= s[j].createdAt
  }

  function Insert(p: Product, s: seq<Product>): (r: seq<Product>)
    requires NewestFirst(s)
    ensures NewestFirst(r)
    ensures multiset(r) == multiset(s) + multiset{p}
    ensures forall q :: q in r ==> q == p || q in s
  {
    if s == [] || p.createdAt >= s[0].createdAt then [p] + s
    else
      var tail := Insert(p, s[1..]);
      BoundedByHead(s[0], tail, p, s[1..]);
      assert s == [s[0]] + s[1..];
      [s[0]] + tail
  }

  /** Putting `head` in front of a newest-first list keeps it newest first
      when `head` is at least as new as every element. */
  lemma BoundedByHead(head: Product, tail: seq<Product>, p: Product, rest: seq<Product>)
    requires NewestFirst(tail)
    requires forall q :: q in tail ==> q == p || q in rest
    requires p.createdAt <= head.createdAt
    requires forall q :: q in rest ==> q.createdAt <= head.createdAt
    ensures NewestFirst([head] + tail)
  {
    var r := [head] + tail;
    forall i, j | 0 <= i < j < |r| ensures r[i].createdAt >= r[j].createdAt {
      if i > 0 {
        assert r[i] == tail[i - 1] && r[j] == tail[j - 1];
      } else {
        assert r[j] == tail[j - 1] && r[j] in tail;
      }
    }
  }

  /** One order `orderBy: { createdAt: 'desc' }` admits; rows created at the
      same time may come in any order, and this one is a choice. */
  function SortNewestFirst(s: seq<Product>): (r: seq<Product>)
    ensures NewestFirst(r)
    ensures multiset(r) == multiset(s)
  {
    if s == [] then []
    else
      assert s == [s[0]] + s[1..];
      Insert(s[0], SortNewestFirst(s[1..]))
  }

  /** `findMany({ where: { userId: owner }, orderBy: { createdAt: 'desc' } })`. */
  function FindManyOwnedBy(rows: seq<Product>, owner: Id): seq<Product> {
    SortNewestFirst(OwnedBy(rows, owner))
  }

  /** The list holds exactly the owner's rows, each as often as in the
      table, newest first. */
  lemma FindManyIsOwnedRowsNewestFirst(rows: seq<Product>, owner: Id)
    ensures var r := FindManyOwnedBy(rows, owner);
            && NewestFirst(r)
            && multiset(r) == multiset(OwnedBy(rows, owner))
            && (forall p :: multiset(r)[p] == if p.userId == owner then multiset(rows)[p] else 0)
            && forall p :: p in r <==> p in rows && p.userId == owner
  {
    var r := FindManyOwnedBy(rows, owner);
    forall p ensures p in r <==> p in OwnedBy(rows, owner) {
      assert p in r <==> p in multiset(r);
    }
  }

  /** `GET(request)`: `sessionCookie`, `secret`, `codec` and `now` are what
      `getUserFromSession` reads; `fault` is what `findMany` raises, if
      anything. */
  function Get(sessionCookie: Option<string>, secret: Option<string>, codec: Jwt.Codec, now: nat,
               rows: seq<Product>, fault: Option<JsValue>): (r: Response<ProductJson>)
    ensures Auth.GetUserFromSession(sessionCookie, secret, codec, now).None? ==> r == Plain(401, UnauthorizedText)
    ensures r.setCookie == None
    // A signed-in caller gets the generic 500 when `findMany` throws, and a
    // 200 otherwise.
    ensures Auth.GetUserFromSession(sessionCookie, secret, codec, now).Some? ==>
              && (fault.Some? ==> r == Plain(500, InternalErrorText))
              && (fault.None? ==> r.status == 200)
    // The 200 lists each of the caller's rows as often as the table holds
    // it, no other row, newest first.
    ensures r.status == 200 ==>
              && Auth.GetUserFromSession(sessionCookie, secret, codec, now).Some?
              && fault.None?
              && var caller := Auth.GetUserFromSession(sessionCookie, secret, codec, now).value;
                 && r.body.Json? && r.body.value.Many?
                 && NewestFirst(r.body.value.products)
                 && (forall p :: multiset(r.body.value.products)[p] ==
                                 if p.userId == caller.id then multiset(rows)[p] else 0)
                 && forall p :: p in r.body.value.products <==> p in rows && p.userId == caller.id
  {
    match Auth.GetUserFromSession(sessionCookie, secret, codec, now)
    case None => Plain(401, UnauthorizedText)
    case Some(user) =>
      if fault.Some? then Plain(500, InternalErrorText)
      else
        FindManyIsOwnedRowsNewestFirst(rows, user.id);
        JsonOk(Many(FindManyOwnedBy(rows, user.id)))
  }

  /** The `Product` table. `fault` on `Create` stands for what the database
      raises: a P2002 error when a unique constraint (on `sku`) is violated,
      or anything else. The schema and its constraints are not modelled. */
  class ProductTable {
    var rows: seq<Product>
    var nextId: nat

    /** Ids are assigned from `nextId`, so each row has its own id. */
    ghost predicate Valid()
      reads this
    {
      && (forall p :: p in rows ==> p.id < nextId)
      && forall i, j :: 0 <= i < j < |rows| ==> rows[i].id != rows[j].id
    }

    constructor ()
      ensures Valid() && rows == [] && nextId == 0
    {
      rows := [];
      nextId := 0;
    }

    /** `prisma.product.create({ data: { ...fields, userId: owner } })` at
        time `now`. */
    method Create(fields: seq<JsValue>, owner: Id, now: nat, fault: Option<JsValue>)
      returns (r: Result<Product, JsValue>)
      requires Valid()
      requires |fields| == 6
      modifies this
      ensures Valid()
      ensures fault.Some? ==> r == Failure(fault.value) && rows == old(rows) && nextId == old(nextId)
      ensures fault.None? ==>
                && r == Success(NewProduct(old(nextId), fields, owner, now))
                && (forall p :: p in old(rows) ==> p.id != r.value.id)
                && rows == old(rows) + [r.value]
                && nextId == old(nextId) + 1
    {
      if fault.Some? {
        return Failure(fault.value);
      }
      var product := NewProduct(nextId, fields, owner, now);
      rows := rows + [product];
      nextId := nextId + 1;
      r := Success(product);
    }
  }

  /** `POST(request)` on `table`: identity as for `Get`, `body` the outcome of
      `request.json()` (`None` when it throws), `fault` what `create`
      raises, if anything. */
  method Post(table: ProductTable, sessionCookie: Option<string>, secret: Option<string>, codec: Jwt.Codec,
              now: nat, body: Option<JsValue>, fault: Option<JsValue>)
    returns (r: Response<ProductJson>)
    requires table.Valid()
    modifies table
    ensures table.Valid()
    ensures r.setCookie == None
    ensures r.status != 200 ==> table.rows == old(table.rows) && table.nextId == old(table.nextId)
    ensures Auth.GetUserFromSession(sessionCookie, secret, codec, now).None? ==> r == Plain(401, UnauthorizedText)
    ensures Auth.GetUserFromSession(sessionCookie, secret, codec, now).Some? ==>
              var caller := Auth.GetUserFromSession(sessionCookie, secret, codec, now).value;
              match Destructure(body, Keys)
              case Failure(_) => r == Plain(500, InternalErrorText)
              case Success(fields) =>
                if MissingField(fields) then r == Plain(400, MissingFieldsText)
                else if fault.Some? then
                  r == if IsPrismaP2002Error(fault.value) then Plain(409, DuplicateSkuText)
                       else Plain(500, InternalErrorText)
                else
                  var product := NewProduct(old(table.nextId), fields, caller.id, now);
                  && r == JsonOk(One(product))
                  && table.rows == old(table.rows) + [product]
                  && table.nextId == old(table.nextId) + 1
  {
    var user := Auth.GetUserFromSession(sessionCookie, secret, codec, now);
    if user.None? {
      return Plain(401, UnauthorizedText);
    }
    var fields;
    match Destructure(body, Keys) {
      case Failure(e) => return CatchPost(e);
      case Success(f) => fields := f;
    }
    if MissingField(fields) {
      return Plain(400, MissingFieldsText);
    }
    var created := table.Create(fields, user.value.id, now, fault);
    match created {
      case Failure(e) => return CatchPost(e);
      case Success(product) => return JsonOk(One(product));
    }
  }

  /** Only the six named fields are read from the body, so adding a
      `userId` to it changes nothing: a created row always belongs to the
      caller. */
  lemma BodyCannotChooseOwner(props: map<string, JsValue>, forged: JsValue)
    ensures Destructure(Some(Obj(props)), Keys) == Destructure(Some(Obj(props["userId" := forged])), Keys)
  {
    var a := Destructure(Some(Obj(props)), Keys).value;
    var b := Destructure(Some(Obj(props["userId" := forged])), Keys).value;
    forall i | 0 <= i < |Keys| ensures a[i] == b[i] {
      assert Keys[i] != "userId";
    }
    assert a == b;
  }
}
