/** The SOAP `ProductsService` (Soap_Tp/server.js): CreateProduct,
    GetProducts, PatchProduct and DeleteProduct over the `products` table.

    The store is the in-memory table held by class `Catalog`. Whether the
    store raises on a round trip is an input (`StoreHealth`); every raise
    becomes the fault 'Database Error' and leaves the table as it was. */
module SoapServer {
  import opened Common

  /** A SOAP argument: missing from the request (`undefined`), explicitly
      `null`, or given a value. */
  datatype Arg<+T> = Undefined | Null | Given(value: T)

  /** Which round trip to the store raises, if any: the read (SELECT) or
      the write (INSERT, UPDATE, DELETE). */
  datatype StoreHealth = Up | FailsOnRead | FailsOnWrite

  datatype Result = Row(product: Product) | ProductList(products: seq<Product>) | Message(text: string)

  /** What the service hands to its callback: `(null, result)` or a fault. */
  datatype Reply = Ok(result: Result) | Fault(faultString: string)

  const DatabaseError := "Database Error"
  const IdRequiredForUpdate := "L'ID du produit est requis pour la mise à jour."
  const IdRequiredForDelete := "L'ID est requis pour la suppression."
  const NotFound := "Produit non trouvé."
  const NothingToUpdate := "Aucune donnée fournie pour la mise à jour."
  const Deleted := "Produit supprimé avec succès."

  /** JavaScript truthiness of an integer id: `!id` holds for a missing,
      null or zero id. */
  predicate Truthy(id: Arg<int>)
  {
    id.Given? && id.value != 0
  }

  /** The column value a present argument stores (null stores SQL NULL). */
  function Cell<T>(a: Arg<T>): Option<T>
  {
    if a.Given? then Some(a.value) else None
  }

  /** The optional new column values of a PatchProduct request. */
  datatype Fields = Fields(name: Arg<string>, about: Arg<string>, price: Arg<real>)

  datatype Column = Name | About | Price

  /** A field takes part in the update unless it is `undefined`; `null` counts as present. */
  predicate Present(f: Fields, c: Column)
  {
    match c
    case Name => !f.name.Undefined?
    case About => !f.about.Undefined?
    case Price => !f.price.Undefined?
  }

  /** The columns an update must set, in the fixed order name, about, price. */
  function PresentColumns(f: Fields): (cs: seq<Column>)
    ensures forall i, j :: 0 <= i < j < |cs| ==> cs[i] != cs[j]
    ensures forall c :: c in cs <==> Present(f, c)
  {
    (if Present(f, Name) then [Name] else [])
    + (if Present(f, About) then [About] else [])
    + (if Present(f, Price) then [Price] else [])
  }

  function TextParam(a: Arg<string>): Param
  {
    if a.Given? then PText(a.value) else PNull
  }

  /** The value bound for column `c` of the request. */
  function FieldParam(f: Fields, c: Column): Param
  {
    match c
    case Name => TextParam(f.name)
    case About => TextParam(f.about)
    case Price => if f.price.Given? then PReal(f.price.value) else PNull
  }

  // ---------------------------------------------------------------------------
  // The SET clause: entries `<column> = $<slot>` and the values they bind
  // ---------------------------------------------------------------------------

  /** One entry `<column> = $<slot>` of the SET clause. */
  datatype SetEntry = SetEntry(column: Column, slot: nat)

  /** `updates` and `values` are grown in lockstep: `$1` is the id, the k-th
      entry (from 0) names placeholder `$(k+2)`, which binds `values[k+1]`,
      the new value of that entry's column; exactly the present columns are
      set, in order. */
  ghost predicate Paired(id: int, f: Fields, updates: seq<SetEntry>, values: seq<Param>)
  {
    Lockstep(id, f, updates, values, PresentColumns(f))
  }

  /** Builds the SET entries and bound values of PatchProduct, numbering
      each placeholder from the current length of `values`. */
  method BuildSet(id: int, f: Fields) returns (updates: seq<SetEntry>, values: seq<Param>)
    ensures Paired(id, f, updates, values)
  {
    updates, values := [], [PInt(id)];
    ghost var cols: seq<Column> := [];
    if !f.name.Undefined? {
      LockstepPush(id, f, updates, values, cols, Name);
      updates := updates + [SetEntry(Name, |values| + 1)];
      values := values + [FieldParam(f, Name)];
      cols := cols + [Name];
    }
    if !f.about.Undefined? {
      LockstepPush(id, f, updates, values, cols, About);
      updates := updates + [SetEntry(About, |values| + 1)];
      values := values + [FieldParam(f, About)];
      cols := cols + [About];
    }
    if !f.price.Undefined? {
      LockstepPush(id, f, updates, values, cols, Price);
      updates := updates + [SetEntry(Price, |values| + 1)];
      values := values + [FieldParam(f, Price)];
      cols := cols + [Price];
    }
    assert cols == PresentColumns(f);
    assert Lockstep(id, f, updates, values, PresentColumns(f));
  }

  /** The pairing with the columns set so far named by `cols`. */
  ghost predicate Lockstep(id: int, f: Fields, updates: seq<SetEntry>, values: seq<Param>, cols: seq<Column>)
  {
    && |values| == |updates| + 1
    && values[0] == PInt(id)
    && |updates| == |cols|
    && (forall k :: 0 <= k < |updates| ==>
          && updates[k].column == cols[k]
          && updates[k].slot == k + 2
          && values[k + 1] == FieldParam(f, updates[k].column))
  }

  /** Pushing an entry numbered from the length of `values`, with its value,
      keeps the two sequences in lockstep. */
  lemma LockstepPush(id: int, f: Fields, updates: seq<SetEntry>, values: seq<Param>, cols: seq<Column>, c: Column)
    requires Lockstep(id, f, updates, values, cols)
    ensures Lockstep(id, f, updates + [SetEntry(c, |values| + 1)], values + [FieldParam(f, c)], cols + [c])
  {
  }

  // ---------------------------------------------------------------------------
  // The store executing `UPDATE products SET <updates> WHERE id = $1 RETURNING *`
  // ---------------------------------------------------------------------------

  /** The highest placeholder the statement mentions (`$1` is in the WHERE clause). */
  function HighestSlot(updates: seq<SetEntry>): (n: nat)
    ensures 1 <= n
    ensures forall k :: 0 <= k < |updates| ==> updates[k].slot <= n
  {
    if updates == [] then 1
    else var rest := HighestSlot(updates[1..]);
      if updates[0].slot > rest then updates[0].slot else rest
  }

  /** A bound value the column's type accepts. */
  predicate Fits(c: Column, v: Param)
  {
    v.PNull? || (if c == Price then v.PReal? else v.PText?)
  }

  /** What PostgreSQL demands before it runs the statement: as many values
      as the highest placeholder, an integer for the id, no column assigned
      twice, and every slot referring to a value of its column's type. */
  predicate Bindable(updates: seq<SetEntry>, values: seq<Param>)
  {
    && |values| == HighestSlot(updates)
    && values[0].PInt?
    && (forall i, j :: 0 <= i < j < |updates| ==> updates[i].column != updates[j].column)
    && (forall k :: 0 <= k < |updates| ==>
          1 <= updates[k].slot && Fits(updates[k].column, values[updates[k].slot - 1]))
  }

  /** The placeholder assigned to column `c`, if the clause sets it. */
  function SlotOf(updates: seq<SetEntry>, c: Column): (r: Option<nat>)
    ensures r.None? <==> forall k :: 0 <= k < |updates| ==> updates[k].column != c
    ensures r.Some? ==> exists k :: 0 <= k < |updates| && updates[k] == SetEntry(c, r.value)
  {
    if updates == [] then None
    else if updates[0].column == c then Some(updates[0].slot)
    else SlotOf(updates[1..], c)
  }

  function TextCell(v: Param): Option<string>
  {
    if v.PText? then Some(v.s) else None
  }

  function RealCell(v: Param): Option<real>
  {
    if v.PReal? then Some(v.r) else None
  }

  /** A matched row after the SET clause: each assigned column takes the
      value its placeholder binds, the others keep theirs. */
  function ApplySet(row: Product, updates: seq<SetEntry>, values: seq<Param>): Product
    requires Bindable(updates, values)
  {
    Product(row.id,
      match SlotOf(updates, Name) case None => row.name case Some(s) => TextCell(values[s - 1]),
      match SlotOf(updates, About) case None => row.about case Some(s) => TextCell(values[s - 1]),
      match SlotOf(updates, Price) case None => row.price case Some(s) => RealCell(values[s - 1]))
  }

  /** The table after the UPDATE, or None when the store rejects the statement. */
  function RunUpdate(rows: seq<Product>, updates: seq<SetEntry>, values: seq<Param>): Option<seq<Product>>
  {
    if !Bindable(updates, values) then None
    else Some(seq(|rows|, i requires 0 <= i < |rows| =>
                if PInt(rows[i].id) == values[0] then ApplySet(rows[i], updates, values) else rows[i]))
  }

  // ---------------------------------------------------------------------------
  // The intended partial update
  // ---------------------------------------------------------------------------

  /** A column after a partial update: `undefined` keeps it, `null` clears it. */
  function Assign<T>(current: Option<T>, a: Arg<T>): Option<T>
  {
    match a
    case Undefined => current
    case Null => None
    case Given(v) => Some(v)
  }

  function Patched(row: Product, f: Fields): Product
  {
    Product(row.id, Assign(row.name, f.name), Assign(row.about, f.about), Assign(row.price, f.price))
  }

  /** Every row with the id patched, every other row as it was. */
  function PatchRows(rows: seq<Product>, id: int, f: Fields): seq<Product>
  {
    seq(|rows|, i requires 0 <= i < |rows| => if rows[i].id == id then Patched(rows[i], f) else rows[i])
  }

  lemma {:induction false} HighestOfConsecutive(updates: seq<SetEntry>, base: nat)
    requires 2 <= base
    requires forall k :: 0 <= k < |updates| ==> updates[k].slot == base + k
    ensures HighestSlot(updates) == if updates == [] then 1 else base + |updates| - 1
  {
    if updates != [] {
      HighestOfConsecutive(updates[1..], base + 1);
    }
  }

  /** A paired clause is one PostgreSQL accepts. */
  lemma PairedIsBindable(id: int, f: Fields, updates: seq<SetEntry>, values: seq<Param>)
    requires Paired(id, f, updates, values)
    ensures Bindable(updates, values)
    ensures forall k :: 0 <= k < |updates| ==> Present(f, updates[k].column)
  {
    HighestOfConsecutive(updates, 2);
    var cs := PresentColumns(f);
    forall k | 0 <= k < |updates| ensures Present(f, updates[k].column) {
      assert cs[k] in cs;
    }
  }

  /** Column `c` has a placeholder iff its field is present, binding its value. */
  ghost predicate SlotBinds(f: Fields, updates: seq<SetEntry>, values: seq<Param>, c: Column)
  {
    && (SlotOf(updates, c).Some? <==> Present(f, c))
    && (SlotOf(updates, c).Some? ==>
          1 <= SlotOf(updates, c).value <= |values| && values[SlotOf(updates, c).value - 1] == FieldParam(f, c))
  }

  /** In a paired clause a column has a placeholder iff its field is
      present, and that placeholder binds the field's value. */
  lemma PairedSlot(id: int, f: Fields, updates: seq<SetEntry>, values: seq<Param>, c: Column)
    requires Paired(id, f, updates, values)
    ensures SlotBinds(f, updates, values, c)
  {
    PairedIsBindable(id, f, updates, values);
    var cs := PresentColumns(f);
    if Present(f, c) {
      assert c in cs;
      var k :| 0 <= k < |cs| && cs[k] == c;
      assert updates[k].column == c;
    }
    if SlotOf(updates, c).Some? {
      var k :| 0 <= k < |updates| && updates[k] == SetEntry(c, SlotOf(updates, c).value);
      assert values[k + 1] == FieldParam(f, c);
    }
  }

  /** A paired clause sets each row exactly as the partial update intends. */
  lemma PairedApplies(id: int, f: Fields, updates: seq<SetEntry>, values: seq<Param>, row: Product)
    requires Paired(id, f, updates, values)
    ensures Bindable(updates, values)
    ensures ApplySet(row, updates, values) == Patched(row, f)
  {
    PairedIsBindable(id, f, updates, values);
    PairedSlot(id, f, updates, values, Name);
    PairedSlot(id, f, updates, values, About);
    PairedSlot(id, f, updates, values, Price);
    SlotsApply(f, updates, values, row);
  }

  lemma SlotsApply(f: Fields, updates: seq<SetEntry>, values: seq<Param>, row: Product)
    requires Bindable(updates, values)
    requires SlotBinds(f, updates, values, Name)
    requires SlotBinds(f, updates, values, About)
    requires SlotBinds(f, updates, values, Price)
    ensures ApplySet(row, updates, values) == Patched(row, f)
  {
  }

  /** The lockstep pairing is exactly what makes the statement run as the
      intended partial update: the store accepts it and patches the rows
      with that id, and no others. */
  lemma PairedUpdateRuns(rows: seq<Product>, id: int, f: Fields, updates: seq<SetEntry>, values: seq<Param>)
    requires Paired(id, f, updates, values)
    ensures RunUpdate(rows, updates, values) == Some(PatchRows(rows, id, f))
  {
    PairedIsBindable(id, f, updates, values);
    var run := RunUpdate(rows, updates, values);
    var want := PatchRows(rows, id, f);
    assert run.Some? && |run.value| == |want|;
    forall i | 0 <= i < |rows| ensures run.value[i] == want[i] {
      if rows[i].id == id {
        PairedApplies(id, f, updates, values, rows[i]);
      }
    }
    assert run.value == want;
  }

  // ---------------------------------------------------------------------------
  // The store's SELECT and DELETE by id
  // ---------------------------------------------------------------------------

  predicate HasId(rows: seq<Product>, id: int)
  {
    exists i :: 0 <= i < |rows| && rows[i].id == id
  }

  /** The WHERE condition `id = $1`, and its negation. */
  function IdIs(id: int): Product -> bool
  {
    (p: Product) => p.id == id
  }

  function IdIsNot(id: int): Product -> bool
  {
    (p: Product) => p.id != id
  }

  /** `SELECT * FROM products WHERE id = $1`. */
  function WithId(rows: seq<Product>, id: int): (r: seq<Product>)
    ensures forall p :: p in r <==> p in rows && p.id == id
    ensures r == [] <==> !HasId(rows, id)
  {
    var r := Filter(rows, IdIs(id));
    assert HasId(rows, id) ==> r != [] by {
      if HasId(rows, id) {
        var i :| 0 <= i < |rows| && rows[i].id == id;
        assert rows[i] in r;
      }
    }
    assert r != [] ==> HasId(rows, id) by {
      if r != [] {
        assert r[0] in rows;
        var i :| 0 <= i < |rows| && rows[i] == r[0];
      }
    }
    r
  }

  /** The table after `DELETE FROM products WHERE id = $1`. */
  function WithoutId(rows: seq<Product>, id: int): (r: seq<Product>)
    ensures forall p :: p in r <==> p in rows && p.id != id
  {
    Filter(rows, IdIsNot(id))
  }

  /** Store-assigned ids never repeat. */
  predicate UniqueIds(rows: seq<Product>)
  {
    forall i, j :: 0 <= i < j < |rows| ==> rows[i].id != rows[j].id
  }

  /** With unique ids, deleting by id removes exactly the one row with that
      id and keeps every other row, in order. */
  lemma DeleteRemovesExactlyOne(rows: seq<Product>, id: int, k: nat)
    requires UniqueIds(rows)
    requires k < |rows| && rows[k].id == id
    ensures WithoutId(rows, id) == rows[..k] + rows[k + 1..]
  {
    forall i | 0 <= i < |rows| && i != k ensures IdIsNot(id)(rows[i]) {
      if i < k {
        assert rows[i].id != rows[k].id;
      } else {
        assert rows[k].id != rows[i].id;
      }
    }
    FilterDropsOne(rows, IdIsNot(id), k);
  }

  /** Removing one row keeps the remaining ids distinct. */
  lemma UniqueIdsWithout(rows: seq<Product>, k: nat)
    requires UniqueIds(rows) && k < |rows|
    ensures UniqueIds(rows[..k] + rows[k + 1..])
  {
    var r := rows[..k] + rows[k + 1..];
    forall i, j | 0 <= i < j < |r| ensures r[i].id != r[j].id {
      var i' := if i < k then i else i + 1;
      var j' := if j < k then j else j + 1;
      assert r[i] == rows[i'] && r[j] == rows[j'];
    }
  }

  /** With unique ids, a row is identified by its id. */
  lemma UniqueIdIdentifies(rows: seq<Product>, p: Product, k: nat)
    requires UniqueIds(rows)
    requires k < |rows| && p in rows && p.id == rows[k].id
    ensures p == rows[k]
  {
    var j :| 0 <= j < |rows| && rows[j] == p;
    assert j == k;
  }

  /** A patch keeps every id, so it keeps the ids distinct. */
  lemma PatchKeepsIds(rows: seq<Product>, id: int, f: Fields)
    ensures |PatchRows(rows, id, f)| == |rows|
    ensures forall i :: 0 <= i < |rows| ==> PatchRows(rows, id, f)[i].id == rows[i].id
    ensures UniqueIds(rows) ==> UniqueIds(PatchRows(rows, id, f))
  {
  }

  /** With unique ids, a patch by id touches exactly the one row with that
      id: it keeps its id, its untouched columns and every other row. */
  lemma PatchTouchesOneRow(rows: seq<Product>, id: int, f: Fields, k: nat)
    requires UniqueIds(rows)
    requires k < |rows| && rows[k].id == id
    ensures |PatchRows(rows, id, f)| == |rows|
    ensures forall i :: 0 <= i < |rows| && i != k ==> PatchRows(rows, id, f)[i] == rows[i]
    ensures PatchRows(rows, id, f)[k] == Patched(rows[k], f)
    ensures PatchRows(rows, id, f)[k].id == id
    ensures !Present(f, Name) ==> PatchRows(rows, id, f)[k].name == rows[k].name
    ensures !Present(f, About) ==> PatchRows(rows, id, f)[k].about == rows[k].about
    ensures !Present(f, Price) ==> PatchRows(rows, id, f)[k].price == rows[k].price
  {
  }

  // ---------------------------------------------------------------------------
  // The service
  // ---------------------------------------------------------------------------

  /** The `products` table as the SOAP service sees it. Ids are assigned by
      the store from a serial counter, so they are positive and distinct. */
  class Catalog {
    var rows: seq<Product>
    var nextId: int

    ghost predicate Valid()
      reads this
    {
      && 1 <= nextId
      && (forall i :: 0 <= i < |rows| ==> 1 <= rows[i].id < nextId)
      && UniqueIds(rows)
    }

    constructor ()
      ensures Valid() && rows == [] && nextId == 1
    {
      rows := [];
      nextId := 1;
    }

    /** `INSERT INTO products (name, about, price) VALUES (...) RETURNING *`.
        The client library refuses an `undefined` parameter, which the
        service reports as 'Database Error'. */
    method CreateProduct(name: Arg<string>, about: Arg<string>, price: Arg<real>, store: StoreHealth)
      returns (r: Reply)
      requires Valid()
      modifies this
      ensures Valid()
      ensures (name.Undefined? || about.Undefined? || price.Undefined? || store == FailsOnWrite) ==>
                r == Fault(DatabaseError) && rows == old(rows) && nextId == old(nextId)
      ensures !(name.Undefined? || about.Undefined? || price.Undefined? || store == FailsOnWrite) ==>
                var p := Product(old(nextId), Cell(name), Cell(about), Cell(price));
                && rows == old(rows) + [p]
                && r == Ok(Row(p))
                && !HasId(old(rows), p.id)
                && nextId == old(nextId) + 1
    {
      if name.Undefined? || about.Undefined? || price.Undefined? || store == FailsOnWrite {
        return Fault(DatabaseError);
      }
      var p := Product(nextId, Cell(name), Cell(about), Cell(price));
      rows := rows + [p];
      nextId := nextId + 1;
      r := Ok(Row(p));
    }

    /** `SELECT * FROM products`, answered as `{ products }`. */
    method GetProducts(store: StoreHealth) returns (r: Reply)
      ensures store == FailsOnRead ==> r == Fault(DatabaseError)
      ensures store != FailsOnRead ==> r == Ok(ProductList(rows))
    {
      if store == FailsOnRead {
        return Fault(DatabaseError);
      }
      r := Ok(ProductList(rows));
    }

    /** Checks, in order: id given, row exists, some field given; then runs
        the UPDATE built by BuildSet and returns the updated row. */
    method PatchProduct(id: Arg<int>, f: Fields, store: StoreHealth) returns (r: Reply)
      requires Valid()
      modifies this
      ensures Valid() && nextId == old(nextId)
      ensures r.Fault? ==> rows == old(rows)
      ensures !Truthy(id) ==> r == Fault(IdRequiredForUpdate)
      ensures Truthy(id) && store == FailsOnRead ==> r == Fault(DatabaseError)
      ensures Truthy(id) && store != FailsOnRead && !HasId(old(rows), id.value) ==> r == Fault(NotFound)
      ensures Truthy(id) && store != FailsOnRead && HasId(old(rows), id.value) && PresentColumns(f) == [] ==>
                r == Fault(NothingToUpdate)
      ensures Truthy(id) && store == FailsOnWrite && HasId(old(rows), id.value) && PresentColumns(f) != [] ==>
                r == Fault(DatabaseError)
      ensures Truthy(id) && store == Up && HasId(old(rows), id.value) && PresentColumns(f) != [] ==>
                && rows == PatchRows(old(rows), id.value, f)
                && forall k :: 0 <= k < |rows| && rows[k].id == id.value ==> r == Ok(Row(rows[k]))
    {
      if !Truthy(id) {
        return Fault(IdRequiredForUpdate);
      }
      if store == FailsOnRead {
        return Fault(DatabaseError);
      }
      var existing := WithId(rows, id.value);
      if |existing| == 0 {
        return Fault(NotFound);
      }
      var updates, values := BuildSet(id.value, f);
      if |updates| == 0 {
        return Fault(NothingToUpdate);
      }
      if store == FailsOnWrite {
        return Fault(DatabaseError);
      }
      r := ExecuteUpdate(id.value, f, updates, values);
    }

    /** The store running `UPDATE products SET <updates> WHERE id = $1
        RETURNING *` with `values`, and the first returned row. */
    method ExecuteUpdate(id: int, ghost f: Fields, updates: seq<SetEntry>, values: seq<Param>) returns (r: Reply)
      requires Valid() && Paired(id, f, updates, values) && HasId(rows, id)
      modifies this
      ensures Valid() && nextId == old(nextId)
      ensures rows == PatchRows(old(rows), id, f)
      ensures forall k :: 0 <= k < |rows| && rows[k].id == id ==> r == Ok(Row(rows[k]))
    {
      ghost var k0 :| 0 <= k0 < |rows| && rows[k0].id == id;
      PairedUpdateRuns(rows, id, f, updates, values);
      PatchKeepsIds(rows, id, f);
      rows := RunUpdate(rows, updates, values).value;
      assert rows[k0].id == id;
      var returned := WithId(rows, id);
      r := Ok(Row(returned[0]));
      forall k | 0 <= k < |rows| && rows[k].id == id ensures r == Ok(Row(rows[k])) {
        UniqueIdIdentifies(rows, returned[0], k);
      }
    }

    /** Checks, in order: id given, row exists; then deletes every row with
        that id (exactly one, the ids being unique). */
    method DeleteProduct(id: Arg<int>, store: StoreHealth) returns (r: Reply)
      requires Valid()
      modifies this
      ensures Valid() && nextId == old(nextId)
      ensures r.Fault? ==> rows == old(rows)
      ensures !Truthy(id) ==> r == Fault(IdRequiredForDelete)
      ensures Truthy(id) && store == FailsOnRead ==> r == Fault(DatabaseError)
      ensures Truthy(id) && store != FailsOnRead && !HasId(old(rows), id.value) ==> r == Fault(NotFound)
      ensures Truthy(id) && store == FailsOnWrite && HasId(old(rows), id.value) ==> r == Fault(DatabaseError)
      ensures Truthy(id) && store == Up && HasId(old(rows), id.value) ==>
                && r == Ok(Message(Deleted))
                && rows == WithoutId(old(rows), id.value)
                && exists k :: 0 <= k < |old(rows)| && old(rows)[k].id == id.value
                              && rows == old(rows)[..k] + old(rows)[k + 1..]
    {
      if !Truthy(id) {
        return Fault(IdRequiredForDelete);
      }
      if store == FailsOnRead {
        return Fault(DatabaseError);
      }
      var existing := WithId(rows, id.value);
      if |existing| == 0 {
        return Fault(NotFound);
      }
      if store == FailsOnWrite {
        return Fault(DatabaseError);
      }
      ExecuteDelete(id.value);
      r := Ok(Message(Deleted));
    }

    /** The store running `DELETE FROM products WHERE id = $1`. */
    method ExecuteDelete(id: int)
      requires Valid() && HasId(rows, id)
      modifies this
      ensures Valid() && nextId == old(nextId)
      ensures rows == WithoutId(old(rows), id)
      ensures exists k :: 0 <= k < |old(rows)| && old(rows)[k].id == id && rows == old(rows)[..k] + old(rows)[k + 1..]
    {
      var k :| 0 <= k < |rows| && rows[k].id == id;
      DeleteRemovesExactlyOne(rows, id, k);
      UniqueIdsWithout(rows, k);
      rows := WithoutId(rows, id);
    }
  }

  /** Create, patch, delete, then patch again, against a fresh table. */
  method Scenario() returns (created: Reply, patched: Reply, deleted: Reply, again: Reply)
    ensures created == Ok(Row(Product(1, Some("Widget"), Some("A widget"), Some(9.99))))
    ensures patched == Ok(Row(Product(1, Some("Widget v2"), Some("A widget"), Some(9.99))))
    ensures deleted == Ok(Message(Deleted))
    ensures again == Fault(NotFound)
  {
    var c := new Catalog();
    created := c.CreateProduct(Given("Widget"), Given("A widget"), Given(9.99), Up);
    assert c.rows[0].id == 1;
    patched := c.PatchProduct(Given(1), Fields(Given("Widget v2"), Undefined, Undefined), Up);
    assert c.rows[0].id == 1;
    deleted := c.DeleteProduct(Given(1), Up);
    again := c.PatchProduct(Given(1), Fields(Given("x"), Undefined, Undefined), Up);
  }
}
