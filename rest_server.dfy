/** The JSON/HTTP service (REST-POSTGRES/server.js): `GET /products` with
    optional filters, `POST /users` and `POST /reviews`.

    Library calls the model cannot see are parameters: `parse` stands for
    `parseFloat` (None is NaN), `like` for the store's ILIKE match of a
    column value against a pattern, `isEmail` for the schema's e-mail check
    and `hash` for `hashPassword`. Whether the store raises is the input
    `storeFails`. */
module RestServer {
  import opened Common

  /** A response: HTTP status and JSON body. */
  datatype Response = Response(status: int, body: Body)

  datatype Body =
    | ProductList(products: seq<Product>)
    | Message(message: string)
    | ErrorMessage(error: string)
    | ValidationFailed
    | UserCreated(id: int, username: string, email: string)
    | ReviewCreated(review: Review)

  const NoProductFound := "Aucun produit trouvé"
  const ListFailed := "Erreur lors de la récupération des produits"
  const UserFailed := "Erreur lors de la création de l'utilisateur"
  const ReviewFailed := "Erreur lors de la création de l'avis"

  // ===========================================================================
  // GET /products
  // ===========================================================================

  /** The query string: each filter absent (None) or given as text. */
  datatype Filters = Filters(name: Option<string>, about: Option<string>, price: Option<string>)

  /** One WHERE condition. The user's text reaches it only as the value
      bound to the condition's placeholder. */
  datatype Condition = NameLike(pattern: string) | AboutLike(pattern: string) | PriceAtMost(limit: real)

  /** JavaScript truthiness of a query value: present and not "". */
  predicate Truthy(v: Option<string>)
  {
    v.Some? && v.value != ""
  }

  /** The ILIKE pattern for "contains `v`". */
  function Contains(v: string): string
  {
    "%" + v + "%"
  }

  /** The price limit in force: the parsed `price` when it is truthy and
      parses to a number, and none otherwise. */
  function PriceLimit(f: Filters, parse: string -> Option<real>): Option<real>
  {
    if Truthy(f.price) then parse(f.price.value) else None
  }

  /** No filter takes effect. */
  predicate Unfiltered(f: Filters, parse: string -> Option<real>)
  {
    !Truthy(f.name) && !Truthy(f.about) && PriceLimit(f, parse).None?
  }

  /** The position of each kind of condition in the fixed order name, about, price. */
  function Rank(c: Condition): nat
  {
    match c
    case NameLike(_) => 0
    case AboutLike(_) => 1
    case PriceAtMost(_) => 2
  }

  /** The condition carries exactly the value the filters supply for it. */
  predicate BindsFilter(c: Condition, f: Filters, parse: string -> Option<real>)
  {
    match c
    case NameLike(p) => Truthy(f.name) && p == Contains(f.name.value)
    case AboutLike(p) => Truthy(f.about) && p == Contains(f.about.value)
    case PriceAtMost(l) => PriceLimit(f, parse) == Some(l)
  }

  /** The store's reading of one condition on a row; NULL never matches. */
  predicate Holds(c: Condition, p: Product, like: (string, string) -> bool)
  {
    match c
    case NameLike(pat) => p.name.Some? && like(p.name.value, pat)
    case AboutLike(pat) => p.about.Some? && like(p.about.value, pat)
    case PriceAtMost(l) => p.price.Some? && p.price.value <= l
  }

  /** The conditions joined with AND. */
  predicate AllHold(cs: seq<Condition>, p: Product, like: (string, string) -> bool)
  {
    forall i :: 0 <= i < |cs| ==> Holds(cs[i], p, like)
  }

  /** What the filters ask of a row, stated filter by filter. */
  predicate Admits(f: Filters, parse: string -> Option<real>, like: (string, string) -> bool, p: Product)
  {
    && (Truthy(f.name) ==> p.name.Some? && like(p.name.value, Contains(f.name.value)))
    && (Truthy(f.about) ==> p.about.Some? && like(p.about.value, Contains(f.about.value)))
    && (PriceLimit(f, parse).Some? ==> p.price.Some? && p.price.value <= PriceLimit(f, parse).value)
  }

  /** The rows of the table the filters admit, in table order. */
  function Matching(table: seq<Product>, f: Filters, parse: string -> Option<real>,
                    like: (string, string) -> bool): seq<Product>
  {
    Filter(table, (p: Product) => Admits(f, parse, like, p))
  }

  /** `SELECT * FROM products [WHERE <conds joined by AND>]` run by the store. */
  function Select(table: seq<Product>, conds: seq<Condition>, like: (string, string) -> bool): seq<Product>
  {
    Filter(table, (p: Product) => AllHold(conds, p, like))
  }

  /** The conditions each filter contributes, in the order they are pushed. */
  ghost function NameCondition(f: Filters): seq<Condition>
  {
    if Truthy(f.name) then [NameLike(Contains(f.name.value))] else []
  }

  ghost function AboutCondition(f: Filters): seq<Condition>
  {
    if Truthy(f.about) then [AboutLike(Contains(f.about.value))] else []
  }

  ghost function PriceCondition(f: Filters, parse: string -> Option<real>): seq<Condition>
  {
    if PriceLimit(f, parse).Some? then [PriceAtMost(PriceLimit(f, parse).value)] else []
  }

  lemma PlannedShape(f: Filters, parse: string -> Option<real>)
    ensures var cs := NameCondition(f) + AboutCondition(f) + PriceCondition(f, parse);
      && (cs == [] <==> Unfiltered(f, parse))
      && (forall i, j :: 0 <= i < j < |cs| ==> Rank(cs[i]) < Rank(cs[j]))
      && (forall i :: 0 <= i < |cs| ==> BindsFilter(cs[i], f, parse))
      && (Truthy(f.name) <==> exists i :: 0 <= i < |cs| && cs[i].NameLike?)
      && (Truthy(f.about) <==> exists i :: 0 <= i < |cs| && cs[i].AboutLike?)
      && (PriceLimit(f, parse).Some? <==> exists i :: 0 <= i < |cs| && cs[i].PriceAtMost?)
  {
    var n, a, q := NameCondition(f), AboutCondition(f), PriceCondition(f, parse);
    var cs := n + a + q;
    forall i | 0 <= i < |cs|
      ensures cs[i] in n ==> cs[i].NameLike?
      ensures cs[i] in a ==> cs[i].AboutLike?
      ensures cs[i] in q ==> cs[i].PriceAtMost?
      ensures cs[i] in n || cs[i] in a || cs[i] in q
    {
      assert cs[i] in cs;
    }
    if Truthy(f.name) {
      assert cs[0].NameLike?;
    }
    if Truthy(f.about) {
      assert cs[|n|].AboutLike?;
    }
    if PriceLimit(f, parse).Some? {
      assert cs[|n| + |a|].PriceAtMost?;
    }
  }

  lemma PlannedMeaning(f: Filters, parse: string -> Option<real>, p: Product, like: (string, string) -> bool)
    ensures AllHold(NameCondition(f) + AboutCondition(f) + PriceCondition(f, parse), p, like)
            <==> Admits(f, parse, like, p)
  {
    var n, a, q := NameCondition(f), AboutCondition(f), PriceCondition(f, parse);
    var cs := n + a + q;
    if AllHold(cs, p, like) {
      if Truthy(f.name) {
        assert Holds(cs[0], p, like);
      }
      if Truthy(f.about) {
        assert Holds(cs[|n|], p, like);
      }
      if PriceLimit(f, parse).Some? {
        assert Holds(cs[|n| + |a|], p, like);
      }
    }
    if Admits(f, parse, like, p) {
      forall i | 0 <= i < |cs| ensures Holds(cs[i], p, like) {
        assert cs[i] in n || cs[i] in a || cs[i] in q by {
          assert cs[i] in cs;
        }
      }
    }
  }

  /** Grows the list of conditions: one per truthy filter, in the order
      name, about, price; a price that parses to NaN adds nothing. */
  method BuildConditions(f: Filters, parse: string -> Option<real>) returns (conds: seq<Condition>)
    ensures conds == [] <==> Unfiltered(f, parse)
    ensures forall i, j :: 0 <= i < j < |conds| ==> Rank(conds[i]) < Rank(conds[j])
    ensures forall i :: 0 <= i < |conds| ==> BindsFilter(conds[i], f, parse)
    ensures Truthy(f.name) <==> exists i :: 0 <= i < |conds| && conds[i].NameLike?
    ensures Truthy(f.about) <==> exists i :: 0 <= i < |conds| && conds[i].AboutLike?
    ensures PriceLimit(f, parse).Some? <==> exists i :: 0 <= i < |conds| && conds[i].PriceAtMost?
    ensures forall p, like :: AllHold(conds, p, like) <==> Admits(f, parse, like, p)
  {
    conds := [];
    if Truthy(f.name) {
      conds := conds + [NameLike(Contains(f.name.value))];
    }
    assert conds == NameCondition(f);
    if Truthy(f.about) {
      conds := conds + [AboutLike(Contains(f.about.value))];
    }
    assert conds == NameCondition(f) + AboutCondition(f);
    if Truthy(f.price) {
      var parsed := parse(f.price.value);
      if parsed.Some? {
        conds := conds + [PriceAtMost(parsed.value)];
      }
    }
    assert conds == NameCondition(f) + AboutCondition(f) + PriceCondition(f, parse);
    PlannedShape(f, parse);
    forall p, like ensures AllHold(conds, p, like) <==> Admits(f, parse, like, p) {
      PlannedMeaning(f, parse, p, like);
    }
  }

  /** The handler: 500 when the store raises, 404 when no row matches,
      200 with the matching rows, unchanged and in table order, otherwise. */
  method GetProducts(table: seq<Product>, f: Filters, parse: string -> Option<real>,
                     like: (string, string) -> bool, storeFails: bool) returns (resp: Response)
    ensures storeFails ==> resp == Response(500, ErrorMessage(ListFailed))
    ensures !storeFails && Matching(table, f, parse, like) == [] ==> resp == Response(404, Message(NoProductFound))
    ensures !storeFails && Matching(table, f, parse, like) != [] ==>
              resp == Response(200, ProductList(Matching(table, f, parse, like)))
  {
    var conds := BuildConditions(f, parse);
    if storeFails {
      return Response(500, ErrorMessage(ListFailed));
    }
    // The store runs `stmt`; `Select` is what it does with those conditions.
    var stmt := Render(conds);
    var products := Select(table, conds, like);
    FilterCongruent(table, (p: Product) => AllHold(conds, p, like), (p: Product) => Admits(f, parse, like, p));
    if |products| == 0 {
      return Response(404, Message(NoProductFound));
    }
    resp := Response(200, ProductList(products));
  }

  /** With no filter in effect the query is unconditional and lists every row. */
  lemma UnfilteredListsAll(table: seq<Product>, f: Filters, parse: string -> Option<real>,
                           like: (string, string) -> bool)
    requires Unfiltered(f, parse)
    ensures Matching(table, f, parse, like) == table
  {
    FilterKeepsAll(table, (p: Product) => Admits(f, parse, like, p));
  }

  /** A price that parses to NaN behaves exactly as an absent price. */
  lemma NaNPriceIsAbsent(table: seq<Product>, f: Filters, parse: string -> Option<real>,
                         like: (string, string) -> bool)
    requires f.price.Some? && parse(f.price.value).None?
    ensures Matching(table, f, parse, like) == Matching(table, f.(price := None), parse, like)
  {
    var g := f.(price := None);
    assert PriceLimit(f, parse).None? && PriceLimit(g, parse).None?;
    FilterCongruent(table, (p: Product) => Admits(f, parse, like, p), (p: Product) => Admits(g, parse, like, p));
  }

  /** A row is listed iff each given filter, on its own, would list it. */
  lemma MatchingIsIntersection(table: seq<Product>, f: Filters, parse: string -> Option<real>,
                               like: (string, string) -> bool, p: Product)
    ensures p in Matching(table, f, parse, like) <==>
              && p in Matching(table, Filters(f.name, None, None), parse, like)
              && p in Matching(table, Filters(None, f.about, None), parse, like)
              && p in Matching(table, Filters(None, None, f.price), parse, like)
  {
  }

  /** A parsed price p admits exactly the rows priced at most p. */
  lemma PriceFilterIsUpperBound(table: seq<Product>, f: Filters, parse: string -> Option<real>,
                                like: (string, string) -> bool, p: Product)
    requires !Truthy(f.name) && !Truthy(f.about) && PriceLimit(f, parse).Some?
    ensures p in Matching(table, f, parse, like) <==>
              p in table && p.price.Some? && p.price.value <= PriceLimit(f, parse).value
  {
  }

  // ---------------------------------------------------------------------------
  // The statement text: postgres.js numbers the placeholders of the joined
  // fragments; the user's values travel only as parameters
  // ---------------------------------------------------------------------------

  datatype Token = Sql(text: string) | Placeholder(number: nat)
  datatype Statement = Statement(text: seq<Token>, params: seq<Param>)

  /** The fixed pieces of text the statement is made of. */
  predicate Keyword(s: string)
  {
    s in {"SELECT * FROM products", "SELECT * FROM products WHERE ", "name ILIKE ", "about ILIKE ",
          "price <= ", " AND "}
  }

  /** The text a condition contributes before its placeholder. */
  function KeywordOf(c: Condition): string
  {
    match c
    case NameLike(_) => "name ILIKE "
    case AboutLike(_) => "about ILIKE "
    case PriceAtMost(_) => "price <= "
  }

  /** The text between two joined conditions. */
  const Separator: Token := Sql(" AND ")

  /** A condition's fragment, `sql\`name ILIKE ${…}\`` and its siblings:
      its keyword, then the placeholder `$n`. */
  function Fragment(c: Condition, n: nat): seq<Token>
  {
    [Sql(KeywordOf(c)), Placeholder(n)]
  }

  /** The value bound to a condition's placeholder. */
  function Bound(c: Condition): Param
  {
    match c
    case NameLike(p) => PText(p)
    case AboutLike(p) => PText(p)
    case PriceAtMost(l) => PReal(l)
  }

  /** The position of condition i's keyword in the joined text; its
      placeholder follows it, then the separator before condition i + 1. */
  function KeywordPos(i: int): int
  {
    3 * i
  }

  /** The layout of the joined conditions from placeholder `$n` on:
      condition i contributes its keyword followed by `$(n + i)`, which binds
      that condition's own value, and consecutive conditions are separated
      by ` AND `. */
  ghost predicate LaidOut(cs: seq<Condition>, n: nat, r: Statement)
  {
    && |r.text| == 3 * |cs| - 1 && |r.params| == |cs|
    && forall i {:trigger KeywordPos(i)} :: 0 <= i < |cs| ==>
         && r.text[KeywordPos(i)] == Sql(KeywordOf(cs[i]))
         && r.text[KeywordPos(i) + 1] == Placeholder(n + i)
         && r.params[i] == Bound(cs[i])
         && (i < |cs| - 1 ==> r.text[KeywordPos(i) + 2] == Separator)
  }

  /** Prefixing a fragment and a separator to a laid-out statement lays out
      the longer list. */
  lemma LaidOutCons(cs: seq<Condition>, n: nat, rest: Statement)
    requires |cs| > 1 && LaidOut(cs[1..], n + 1, rest)
    ensures LaidOut(cs, n, Statement(Fragment(cs[0], n) + [Separator] + rest.text, [Bound(cs[0])] + rest.params))
  {
    var head := Fragment(cs[0], n) + [Separator];
    var r := Statement(head + rest.text, [Bound(cs[0])] + rest.params);
    forall i | 1 <= i < |cs|
      ensures && r.text[KeywordPos(i)] == Sql(KeywordOf(cs[i]))
              && r.text[KeywordPos(i) + 1] == Placeholder(n + i)
              && r.params[i] == Bound(cs[i])
              && (i < |cs| - 1 ==> r.text[KeywordPos(i) + 2] == Separator)
    {
      var j := i - 1;
      assert KeywordPos(i) == KeywordPos(j) + |head|;
      assert cs[i] == cs[1..][j];
      assert r.params[i] == rest.params[j];
    }
  }

  /** `sql.join(conds, sql\` AND \`)`, numbering placeholders from `n`. */
  function JoinAnd(cs: seq<Condition>, n: nat): (r: Statement)
    requires cs != []
    ensures LaidOut(cs, n, r)
    decreases |cs|
  {
    if |cs| == 1 then Statement(Fragment(cs[0], n), [Bound(cs[0])])
    else
      var rest := JoinAnd(cs[1..], n + 1);
      LaidOutCons(cs, n, rest);
      Statement(Fragment(cs[0], n) + [Separator] + rest.text, [Bound(cs[0])] + rest.params)
  }

  /** The query of lines 131-133: unconditional when there is no condition;
      otherwise the `WHERE` keyword followed by the conditions laid out from
      placeholder `$1`. */
  function Render(cs: seq<Condition>): (r: Statement)
    ensures cs == [] ==> r == Statement([Sql("SELECT * FROM products")], [])
    ensures cs != [] ==>
              && |r.text| >= 1 && r.text[0] == Sql("SELECT * FROM products WHERE ")
              && LaidOut(cs, 1, Statement(r.text[1..], r.params))
  {
    if cs == [] then Statement([Sql("SELECT * FROM products")], [])
    else
      var w := JoinAnd(cs, 1);
      var r := Statement([Sql("SELECT * FROM products WHERE ")] + w.text, w.params);
      assert r.text[1..] == w.text;
      r
  }

  /** The kinds of the conditions, with their values forgotten. */
  function Kinds(cs: seq<Condition>): seq<nat>
  {
    if cs == [] then [] else [Rank(cs[0])] + Kinds(cs[1..])
  }

  /** The joined text is keywords and placeholders `$n` .. `$(n + |cs| - 1)`. */
  lemma JoinAndText(cs: seq<Condition>, n: nat)
    requires cs != []
    ensures forall t :: t in JoinAnd(cs, n).text && t.Sql? ==> Keyword(t.text)
    ensures forall t :: t in JoinAnd(cs, n).text && t.Placeholder? ==> n <= t.number < n + |cs|
  {
    var text := JoinAnd(cs, n).text;
    forall j | 0 <= j < |text|
      ensures text[j].Sql? ==> Keyword(text[j].text)
      ensures text[j].Placeholder? ==> n <= text[j].number < n + |cs|
    {
      var i := j / 3;
      assert j == KeywordPos(i) || j == KeywordPos(i) + 1 || j == KeywordPos(i) + 2;
      assert Keyword(KeywordOf(cs[i]));
    }
  }

  /** Every value is bound as a parameter, in condition order; the
      placeholder after each condition's keyword binds that condition's own
      value; every placeholder names a parameter; and the text is made only
      of fixed keywords, so no user value is spliced into it. */
  lemma RenderIsParameterised(cs: seq<Condition>)
    ensures |Render(cs).params| == |cs|
    ensures forall i :: 0 <= i < |cs| ==>
              && Render(cs).text[3 * i + 1] == Sql(KeywordOf(cs[i]))
              && Render(cs).text[3 * i + 2].Placeholder?
              && 1 <= Render(cs).text[3 * i + 2].number <= |Render(cs).params|
              && Render(cs).params[Render(cs).text[3 * i + 2].number - 1] == Bound(cs[i])
    ensures forall t :: t in Render(cs).text && t.Sql? ==> Keyword(t.text)
    ensures forall t :: t in Render(cs).text && t.Placeholder? ==> 1 <= t.number <= |Render(cs).params|
    ensures cs == [] ==> Render(cs) == Statement([Sql("SELECT * FROM products")], [])
  {
    if cs != [] {
      var r, w := Render(cs), JoinAnd(cs, 1);
      JoinAndText(cs, 1);
      assert r.text == [Sql("SELECT * FROM products WHERE ")] + w.text;
      forall i | 0 <= i < |cs|
        ensures && r.text[3 * i + 1] == Sql(KeywordOf(cs[i]))
                && r.text[3 * i + 2] == Placeholder(i + 1)
                && r.params[i] == Bound(cs[i])
      {
        assert r.text[KeywordPos(i) + 1] == w.text[KeywordPos(i)];
        assert r.text[KeywordPos(i) + 2] == w.text[KeywordPos(i) + 1];
      }
      forall t | t in r.text ensures t == r.text[0] || t in w.text {
      }
    }
  }

  lemma {:induction false} JoinAndIgnoresValues(cs1: seq<Condition>, cs2: seq<Condition>, n: nat)
    requires cs1 != [] && Kinds(cs1) == Kinds(cs2)
    ensures JoinAnd(cs1, n).text == JoinAnd(cs2, n).text
    decreases |cs1|
  {
    assert |cs1| == |Kinds(cs1)| == |Kinds(cs2)| == |cs2| by {
      KindsLength(cs1);
      KindsLength(cs2);
    }
    assert Rank(cs1[0]) == Kinds(cs1)[0] == Kinds(cs2)[0] == Rank(cs2[0]);
    assert Fragment(cs1[0], n) == Fragment(cs2[0], n);
    if |cs1| > 1 {
      assert Kinds(cs1[1..]) == Kinds(cs1)[1..] == Kinds(cs2)[1..] == Kinds(cs2[1..]);
      JoinAndIgnoresValues(cs1[1..], cs2[1..], n + 1);
    }
  }

  lemma {:induction false} KindsLength(cs: seq<Condition>)
    ensures |Kinds(cs)| == |cs|
  {
    if cs != [] {
      KindsLength(cs[1..]);
    }
  }

  /** The statement text depends only on which filters are in effect, never
      on the values the user supplied. */
  lemma RenderTextIgnoresValues(cs1: seq<Condition>, cs2: seq<Condition>)
    requires Kinds(cs1) == Kinds(cs2)
    ensures Render(cs1).text == Render(cs2).text
  {
    KindsLength(cs1);
    KindsLength(cs2);
    if cs1 != [] {
      JoinAndIgnoresValues(cs1, cs2, 1);
    }
  }

  // ===========================================================================
  // Request bodies and their schemas
  // ===========================================================================

  /** A JSON value of a request body; arrays and objects are one case. */
  datatype Json = JNull | JBool(b: bool) | JNum(n: real) | JStr(s: string) | JComposite

  /** A body key: absent (None) or present with a value. */
  type Field = Option<Json>

  predicate IsString(v: Field)
  {
    v.Some? && v.value.JStr?
  }

  predicate IsNumber(v: Field)
  {
    v.Some? && v.value.JNum?
  }

  /** The body of `POST /users`. */
  datatype UserBody = UserBody(username: Field, email: Field, password: Field)

  /** `CreateUserSchema`: three strings, a well-formed e-mail, a password of
      at least six characters. */
  predicate ValidUser(b: UserBody, isEmail: string -> bool)
  {
    && IsString(b.username)
    && IsString(b.email) && isEmail(b.email.value.s)
    && IsString(b.password) && |b.password.value.s| >= 6
  }

  /** The body of `POST /reviews`. */
  datatype ReviewBody = ReviewBody(productId: Field, userId: Field, score: Field, content: Field)

  /** `ReviewSchema`: numeric ids, a number from 1 to 5 for the score, and
      an optional string for the content. */
  predicate ValidReview(b: ReviewBody)
  {
    && IsNumber(b.productId)
    && IsNumber(b.userId)
    && IsNumber(b.score) && 1.0 <= b.score.value.n <= 5.0
    && (b.content.None? || IsString(b.content))
  }

  // ===========================================================================
  // POST /users and POST /reviews
  // ===========================================================================

  /** A row of `users`; the password column holds the hash. */
  datatype User = User(id: int, username: string, email: string, password: string)
  datatype Users = Users(rows: seq<User>, nextId: int)

  /** A row of `reviews`. */
  datatype Review = Review(id: int, productId: real, userId: real, score: real, content: string)
  datatype Reviews = Reviews(rows: seq<Review>, nextId: int)

  /** A handler's effect: the table afterwards and the response sent. */
  datatype Handled<S> = Handled(table: S, response: Response)

  /** Validate, hash, insert, answer with the id, username and email the
      INSERT returns. The body type of 201 has no password field. */
  function PostUsers(db: Users, b: UserBody, isEmail: string -> bool, hash: string -> string,
                     storeFails: bool): (r: Handled<Users>)
    ensures r.response.status == 400 <==> !ValidUser(b, isEmail)
    ensures r.response.status == 201 <==> ValidUser(b, isEmail) && !storeFails
    ensures r.table != db ==> ValidUser(b, isEmail) && !storeFails
    ensures ValidUser(b, isEmail) && storeFails ==> r == Handled(db, Response(500, ErrorMessage(UserFailed)))
    ensures ValidUser(b, isEmail) && !storeFails ==>
              && |r.table.rows| == |db.rows| + 1
              && r.table.rows[..|db.rows|] == db.rows
              && var u := r.table.rows[|db.rows|];
                 && u == User(db.nextId, b.username.value.s, b.email.value.s, hash(b.password.value.s))
                 && r.response == Response(201, UserCreated(u.id, u.username, u.email))
  {
    if !ValidUser(b, isEmail) then Handled(db, Response(400, ValidationFailed))
    else
      var hashed := hash(b.password.value.s);
      if storeFails then Handled(db, Response(500, ErrorMessage(UserFailed)))
      else
        var u := User(db.nextId, b.username.value.s, b.email.value.s, hashed);
        Handled(Users(db.rows + [u], db.nextId + 1), Response(201, UserCreated(u.id, u.username, u.email)))
  }

  /** Every stored password is the hash of a password the schema accepted. */
  ghost predicate HashedAtRest(db: Users, hash: string -> string)
  {
    forall i :: 0 <= i < |db.rows| ==> exists pw: string :: |pw| >= 6 && db.rows[i].password == hash(pw)
  }

  /** `POST /users` keeps every stored password a hash, and, as long as the
      hash never returns its input, never stores the new plaintext. */
  lemma PostUsersStoresOnlyHashes(db: Users, b: UserBody, isEmail: string -> bool, hash: string -> string,
                                  storeFails: bool)
    requires HashedAtRest(db, hash)
    ensures HashedAtRest(PostUsers(db, b, isEmail, hash, storeFails).table, hash)
    ensures (forall s :: hash(s) != s) && IsString(b.password) ==>
              forall u :: u in PostUsers(db, b, isEmail, hash, storeFails).table.rows && u !in db.rows ==>
                u.password != b.password.value.s
    ensures (forall s :: hash(s) != s) && ValidUser(b, isEmail) && !storeFails ==>
              PostUsers(db, b, isEmail, hash, storeFails).table.rows[|db.rows|].password != b.password.value.s
  {
    var r := PostUsers(db, b, isEmail, hash, storeFails);
    if r.table != db {
      var pw := b.password.value.s;
      forall i | 0 <= i < |r.table.rows|
        ensures exists p: string :: |p| >= 6 && r.table.rows[i].password == hash(p)
      {
        if i < |db.rows| {
          assert r.table.rows[i] == db.rows[i];
        } else {
          assert r.table.rows[i].password == hash(pw);
        }
      }
    }
  }

  /** Validate, then insert the four values and answer with the whole row.
      The client library refuses an `undefined` parameter, so a body
      without `content` ends in 500. */
  function PostReviews(db: Reviews, b: ReviewBody, storeFails: bool): (r: Handled<Reviews>)
    ensures r.response.status == 400 <==> !ValidReview(b)
    ensures r.response.status == 201 <==> ValidReview(b) && b.content.Some? && !storeFails
    ensures r.table != db ==> ValidReview(b) && b.content.Some? && !storeFails
    ensures ValidReview(b) && (storeFails || b.content.None?) ==>
              r == Handled(db, Response(500, ErrorMessage(ReviewFailed)))
    ensures ValidReview(b) && b.content.Some? && !storeFails ==>
              var rev := Review(db.nextId, b.productId.value.n, b.userId.value.n, b.score.value.n,
                                b.content.value.s);
              r == Handled(Reviews(db.rows + [rev], db.nextId + 1), Response(201, ReviewCreated(rev)))
  {
    if !ValidReview(b) then Handled(db, Response(400, ValidationFailed))
    else if storeFails || b.content.None? then Handled(db, Response(500, ErrorMessage(ReviewFailed)))
    else
      var rev := Review(db.nextId, b.productId.value.n, b.userId.value.n, b.score.value.n, b.content.value.s);
      Handled(Reviews(db.rows + [rev], db.nextId + 1), Response(201, ReviewCreated(rev)))
  }

  /** Every stored score lies in [1, 5]. */
  predicate ScoresInRange(db: Reviews)
  {
    forall i :: 0 <= i < |db.rows| ==> 1.0 <= db.rows[i].score <= 5.0
  }

  /** `POST /reviews` only ever stores scores in range. */
  lemma {:induction false} PostReviewsKeepsScoresInRange(db: Reviews, b: ReviewBody, storeFails: bool)
    requires ScoresInRange(db)
    ensures ScoresInRange(PostReviews(db, b, storeFails).table)
  {
    var r := PostReviews(db, b, storeFails);
    if r.table != db {
      forall i | 0 <= i < |r.table.rows| ensures 1.0 <= r.table.rows[i].score <= 5.0 {
        if i < |db.rows| {
          assert r.table.rows[i] == db.rows[i];
        }
      }
    }
  }
}
