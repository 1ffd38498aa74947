/** The feedstock transaction log of the Agrowaste page and the stock
    table that the page folds from it (src/components/Agrowaste.jsx). */
module Ledger {

  /** The `action` field of a transaction document. The form writes only
      `Add` or `Consume`; any other stored value is `Other`. */
  datatype Action = Add | Consume | Other(value: string)

  /** One document of the `agrowaste_transactions` collection. The
      material name is stored under the key `type`. */
  datatype Record = Record(id: string, action: Action, material: string,
                           quantity: real, timestamp: int, user: string)

  /** A JavaScript object used as a stock table: the value stored under
      each own key, and the keys in insertion order. */
  datatype Table = Table(stock: map<string, real>, keys: seq<string>)

  /** `{}`, the table the fold starts from. */
  const EmptyTable := Table(map[], [])

  /** The server-side page size of the log query. */
  const PAGE_LIMIT := 50

  ghost predicate Distinct(s: seq<string>) {
    forall i, j :: 0 <= i < j < |s| ==> s[i] != s[j]
  }

  /** An object's key order lists each of its keys exactly once. */
  ghost predicate WellFormed(t: Table) {
    Distinct(t.keys) && forall k :: k in t.stock <==> k in t.keys
  }

  /** `table[m] || 0`: the stock of `m`, a missing key reading as 0. */
  function StockOr0(t: Table, m: string): real {
    if m in t.stock then t.stock[m] else 0.0
  }

  // ---------------------------------------------------------------------
  // The reference definition: adds minus consumes

  /** The summed quantity of the records of material `m` with action `a`. */
  function Sum(rs: seq<Record>, m: string, a: Action): real {
    if rs == [] then 0.0
    else
      var r := rs[|rs| - 1];
      Sum(rs[..|rs| - 1], m, a) + (if r.material == m && r.action == a then r.quantity else 0.0)
  }

  /** The stock of `m` over `rs`: its `Add` quantities minus its
      `Consume` quantities. */
  function Total(rs: seq<Record>, m: string): real {
    Sum(rs, m, Add) - Sum(rs, m, Consume)
  }

  /** What one record contributes to the stock of `m`. */
  function Delta(r: Record, m: string): real {
    if r.material != m then 0.0
    else match r.action
      case Add => r.quantity
      case Consume => -r.quantity
      case Other(_) => 0.0
  }

  /** Every material named by some record. */
  ghost function Materials(rs: seq<Record>): set<string> {
    if rs == [] then {} else Materials(rs[..|rs| - 1]) + {rs[|rs| - 1].material}
  }

  // ---------------------------------------------------------------------
  // The fold the snapshot listener runs

  /** One pass of the `forEach` body: give the record's material a key
      (at 0) when it has none, then add or subtract its quantity; any other
      action leaves the value as it is. */
  function Apply(t: Table, r: Record): Table {
    var m := r.material;
    var t0 := if m in t.stock then t else Table(t.stock[m := 0.0], t.keys + [m]);
    var v := t0.stock[m];
    match r.action
    case Add => Table(t0.stock[m := v + r.quantity], t0.keys)
    case Consume => Table(t0.stock[m := v - r.quantity], t0.keys)
    case Other(_) => t0
  }

  /** The table the `forEach` leaves when it walks `rs` in order,
      starting from `{}`. */
  function Inventory(rs: seq<Record>): Table {
    if rs == [] then EmptyTable else Apply(Inventory(rs[..|rs| - 1]), rs[|rs| - 1])
  }

  /** The log in the opposite order, as `Array.prototype.reverse` leaves it. */
  function Reverse(rs: seq<Record>): seq<Record> {
    seq(|rs|, i requires 0 <= i < |rs| => rs[|rs| - 1 - i])
  }

  /** The index of the earliest record of `m`. */
  ghost function FirstIndex(rs: seq<Record>, m: string): (k: nat)
    requires m in Materials(rs)
    ensures k < |rs| && rs[k].material == m
    ensures forall j :: 0 <= j < k ==> rs[j].material != m
  {
    var init := rs[..|rs| - 1];
    if m in Materials(init) then
      FirstIndex(init, m)
    else
      MaterialsMembership(init, m);
      assert forall j :: 0 <= j < |rs| - 1 ==> rs[j] == init[j];
      |rs| - 1
  }

  /** The index of the latest record of `m`. */
  ghost function LastIndex(rs: seq<Record>, m: string): (k: nat)
    requires m in Materials(rs)
    ensures k < |rs| && rs[k].material == m
    ensures forall j :: k < j < |rs| ==> rs[j].material != m
  {
    var init := rs[..|rs| - 1];
    if rs[|rs| - 1].material == m then
      |rs| - 1
    else
      assert rs == init + [rs[|rs| - 1]];
      LastIndex(init, m)
  }

  // ---------------------------------------------------------------------
  // Lemmas

  lemma {:induction false} MaterialsSnoc(rs: seq<Record>, r: Record)
    ensures Materials(rs + [r]) == Materials(rs) + {r.material}
  {
    assert (rs + [r])[..|rs|] == rs;
  }

  /** `m` is a material of `rs` exactly when some record names it. */
  lemma {:induction false} MaterialsMembership(rs: seq<Record>, m: string)
    ensures m in Materials(rs) <==> exists i :: 0 <= i < |rs| && rs[i].material == m
  {
    if rs != [] {
      var init := rs[..|rs| - 1];
      MaterialsMembership(init, m);
      assert forall i :: 0 <= i < |init| ==> init[i] == rs[i];
      if m in Materials(init) {
        var i :| 0 <= i < |init| && init[i].material == m;
        assert rs[i].material == m;
      }
    }
  }

  /** `Sum` over a concatenation is the sum of the two parts. */
  lemma {:induction false} SumAppend(a: seq<Record>, b: seq<Record>, m: string, x: Action)
    ensures Sum(a + b, m, x) == Sum(a, m, x) + Sum(b, m, x)
  {
    if b != [] {
      assert (a + b)[..|a + b| - 1] == a + b[..|b| - 1];
      SumAppend(a, b[..|b| - 1], m, x);
    } else {
      assert a + b == a;
    }
  }

  /** A record appended to the log changes the stock of `m` by exactly
      its contribution. */
  lemma {:induction false} TotalSnoc(rs: seq<Record>, r: Record, m: string)
    ensures Total(rs + [r], m) == Total(rs, m) + Delta(r, m)
  {
    assert (rs + [r])[..|rs|] == rs;
  }

  lemma {:induction false} TotalAppend(a: seq<Record>, b: seq<Record>, m: string)
    ensures Total(a + b, m) == Total(a, m) + Total(b, m)
  {
    SumAppend(a, b, m, Add);
    SumAppend(a, b, m, Consume);
  }

  /** A material no record names has stock 0. */
  lemma {:induction false} TotalAbsent(rs: seq<Record>, m: string)
    requires m !in Materials(rs)
    ensures Total(rs, m) == 0.0
  {
    if rs != [] {
      var init, r := rs[..|rs| - 1], rs[|rs| - 1];
      assert rs == init + [r];
      MaterialsSnoc(init, r);
      TotalAbsent(init, m);
      TotalSnoc(init, r, m);
    }
  }

  /** One pass appends the record's material to the key order when, and
      only when, it had no key yet. */
  lemma {:induction false} ApplyKeys(t: Table, r: Record)
    ensures Apply(t, r).keys == if r.material in t.stock then t.keys else t.keys + [r.material]
    ensures Apply(t, r).stock.Keys == t.stock.Keys + {r.material}
  {
  }

  /** One pass moves the stock of `m`, read with a missing key as 0, by
      exactly the record's contribution. */
  lemma {:induction false} ApplyStock(t: Table, r: Record, m: string)
    ensures StockOr0(Apply(t, r), m) == StockOr0(t, m) + Delta(r, m)
  {
  }

  /** The fold reads, key or no key, each material's adds minus its
      consumes. */
  lemma {:induction false} InventoryValue(rs: seq<Record>, m: string)
    ensures StockOr0(Inventory(rs), m) == Total(rs, m)
  {
    if rs != [] {
      var init, r := rs[..|rs| - 1], rs[|rs| - 1];
      assert rs == init + [r];
      InventoryValue(init, m);
      ApplyStock(Inventory(init), r, m);
      TotalSnoc(init, r, m);
    }
  }

  /** The fold gives a key to exactly the materials of the log, and lists
      each of them once in its key order. */
  lemma {:induction false} InventoryDomain(rs: seq<Record>)
    ensures WellFormed(Inventory(rs))
    ensures Inventory(rs).stock.Keys == Materials(rs)
  {
    if rs != [] {
      var init, r := rs[..|rs| - 1], rs[|rs| - 1];
      assert rs == init + [r];
      InventoryDomain(init);
      MaterialsSnoc(init, r);
      ApplyKeys(Inventory(init), r);
    }
  }

  /** After the fold every material of the log has a key (even at 0 or
      below), no other key exists, and each value is the material's adds
      minus its consumes. */
  lemma {:induction false} InventoryIsTotals(rs: seq<Record>)
    ensures WellFormed(Inventory(rs))
    ensures Inventory(rs).stock.Keys == Materials(rs)
    ensures forall m :: m in Inventory(rs).stock ==> Inventory(rs).stock[m] == Total(rs, m)
  {
    InventoryDomain(rs);
    forall m | m in Inventory(rs).stock
      ensures Inventory(rs).stock[m] == Total(rs, m)
    {
      InventoryValue(rs, m);
    }
  }

  /** One pass keeps the key order by first occurrence. */
  lemma {:induction false} KeyOrderStep(rs: seq<Record>)
    requires rs != []
    requires var t := Inventory(rs[..|rs| - 1]);
      WellFormed(t) && t.stock.Keys == Materials(rs[..|rs| - 1])
    requires var init := rs[..|rs| - 1];
      forall i, j :: 0 <= i < j < |Inventory(init).keys| ==>
        FirstIndex(init, Inventory(init).keys[i]) < FirstIndex(init, Inventory(init).keys[j])
    ensures forall k :: k in Inventory(rs).keys ==> k in Materials(rs)
    ensures forall i, j :: 0 <= i < j < |Inventory(rs).keys| ==>
      FirstIndex(rs, Inventory(rs).keys[i]) < FirstIndex(rs, Inventory(rs).keys[j])
  {
    var init, r := rs[..|rs| - 1], rs[|rs| - 1];
    ApplyKeys(Inventory(init), r);
    var old_keys, keys := Inventory(init).keys, Inventory(rs).keys;
    assert forall k :: k in keys ==> k in Materials(rs);
    forall i, j | 0 <= i < j < |keys|
      ensures FirstIndex(rs, keys[i]) < FirstIndex(rs, keys[j])
    {
      assert keys[i] == old_keys[i];
      if j < |old_keys| {
        assert keys[j] == old_keys[j];
      }
    }
  }

  /** The table's keys stand in the order in which their materials first
      occur in the walked log. */
  lemma {:induction false} InventoryKeyOrder(rs: seq<Record>)
    ensures forall k :: k in Inventory(rs).keys ==> k in Materials(rs)
    ensures forall i, j :: 0 <= i < j < |Inventory(rs).keys| ==>
      FirstIndex(rs, Inventory(rs).keys[i]) < FirstIndex(rs, Inventory(rs).keys[j])
  {
    if rs != [] {
      var init := rs[..|rs| - 1];
      InventoryKeyOrder(init);
      InventoryDomain(init);
      KeyOrderStep(rs);
    }
  }

  lemma {:induction false} ReverseSnoc(rs: seq<Record>)
    requires rs != []
    ensures Reverse(rs) == [rs[|rs| - 1]] + Reverse(rs[..|rs| - 1])
  {
  }

  /** Walking the log newest-first or oldest-first gives every material
      the same total. */
  lemma {:induction false} TotalReverse(rs: seq<Record>, m: string)
    ensures Total(Reverse(rs), m) == Total(rs, m)
  {
    if rs != [] {
      var init, r := rs[..|rs| - 1], rs[|rs| - 1];
      assert rs == init + [r];
      ReverseSnoc(rs);
      TotalReverse(init, m);
      TotalAppend([r], Reverse(init), m);
      TotalSnoc([], r, m);
      TotalSnoc(init, r, m);
      assert [] + [r] == [r];
    }
  }

  lemma {:induction false} MaterialsReverse(rs: seq<Record>)
    ensures Materials(Reverse(rs)) == Materials(rs)
  {
    forall m ensures m in Materials(Reverse(rs)) <==> m in Materials(rs) {
      MaterialsMembership(rs, m);
      MaterialsMembership(Reverse(rs), m);
      if m in Materials(rs) {
        var i :| 0 <= i < |rs| && rs[i].material == m;
        assert Reverse(rs)[|rs| - 1 - i] == rs[i];
      }
      if m in Materials(Reverse(rs)) {
        var i :| 0 <= i < |rs| && Reverse(rs)[i].material == m;
        assert Reverse(rs)[i] == rs[|rs| - 1 - i];
      }
    }
  }

  /** The in-place `reverse()` before the fold does not change the stock
      table's contents: only the order of its keys may differ. */
  lemma {:induction false} ReverseKeepsStock(rs: seq<Record>)
    ensures Inventory(Reverse(rs)).stock == Inventory(rs).stock
    ensures forall k :: k in Inventory(Reverse(rs)).keys <==> k in Inventory(rs).keys
  {
    InventoryIsTotals(rs);
    InventoryIsTotals(Reverse(rs));
    MaterialsReverse(rs);
    forall m | m in Inventory(rs).stock
      ensures Inventory(Reverse(rs)).stock[m] == Inventory(rs).stock[m]
    {
      TotalReverse(rs, m);
    }
  }

  /** The table the listener builds from the reversed page has a key for
      exactly the materials of the page, and reads, key or no key, each
      material's adds minus consumes. */
  lemma {:induction false} ShownStockIsTotal(rs: seq<Record>, m: string)
    ensures m in Inventory(Reverse(rs)).stock <==> m in Materials(rs)
    ensures StockOr0(Inventory(Reverse(rs)), m) == Total(rs, m)
  {
    InventoryIsTotals(Reverse(rs));
    MaterialsReverse(rs);
    TotalReverse(rs, m);
    if m !in Materials(rs) {
      TotalAbsent(rs, m);
    }
  }

  /** After `reverse()` the keys stand in the order of each material's
      latest record, most recent first. */
  lemma {:induction false} ReversedKeyOrder(rs: seq<Record>)
    ensures forall k :: k in Inventory(Reverse(rs)).keys ==> k in Materials(rs)
    ensures forall i, j :: 0 <= i < j < |Inventory(Reverse(rs)).keys| ==>
      LastIndex(rs, Inventory(Reverse(rs)).keys[i]) > LastIndex(rs, Inventory(Reverse(rs)).keys[j])
  {
    var keys := Inventory(Reverse(rs)).keys;
    InventoryKeyOrder(Reverse(rs));
    MaterialsReverse(rs);
    forall i, j | 0 <= i < j < |keys|
      ensures LastIndex(rs, keys[i]) > LastIndex(rs, keys[j])
    {
      FirstIndexReverse(rs, keys[i]);
      FirstIndexReverse(rs, keys[j]);
    }
  }

  /** The first record of `m` in the reversed log is its last record in
      the log, counted from the other end. */
  lemma {:induction false} FirstIndexReverse(rs: seq<Record>, m: string)
    requires m in Materials(rs) && m in Materials(Reverse(rs))
    ensures FirstIndex(Reverse(rs), m) == |rs| - 1 - LastIndex(rs, m)
  {
    var rev := Reverse(rs);
    var f, l := FirstIndex(rev, m), LastIndex(rs, m);
    assert rev[|rs| - 1 - f] == rs[f] by {
      assert rev[f] == rs[|rs| - 1 - f];
    }
    assert rev[|rs| - 1 - l] == rs[l];
  }

  /** Two materials entered oldest-first come out of the reversed fold in
      the opposite key order. */
  lemma {:induction false} ReverseCanReorderKeys(a: Record, b: Record)
    requires a.material != b.material
    ensures Inventory([a, b]).keys == [a.material, b.material]
    ensures Inventory(Reverse([a, b])).keys == [b.material, a.material]
  {
    assert [a, b][..1] == [a] && [a][..0] == [];
    assert Inventory([a]) == Apply(EmptyTable, a);
    assert Inventory([a, b]) == Apply(Inventory([a]), b);
    ApplyKeys(EmptyTable, a);
    ApplyKeys(Inventory([a]), b);
    assert Reverse([a, b]) == [b, a];
    assert [b, a][..1] == [b] && [b][..0] == [];
    assert Inventory([b]) == Apply(EmptyTable, b);
    assert Inventory([b, a]) == Apply(Inventory([b]), a);
    ApplyKeys(EmptyTable, b);
    ApplyKeys(Inventory([b]), a);
  }

  // ---------------------------------------------------------------------
  // Deletion

  /** The log once the store has deleted the document `id`. */
  function RemoveId(rs: seq<Record>, id: string): (r: seq<Record>)
    ensures |r| <= |rs|
  {
    if rs == [] then []
    else
      var init := RemoveId(rs[..|rs| - 1], id);
      if rs[|rs| - 1].id == id then init else init + [rs[|rs| - 1]]
  }

  ghost predicate UniqueIds(rs: seq<Record>) {
    forall i, j :: 0 <= i < j < |rs| ==> rs[i].id != rs[j].id
  }

  /** Deleting an id no record carries leaves the log as it is. */
  lemma {:induction false} RemoveAbsentId(rs: seq<Record>, id: string)
    requires forall i :: 0 <= i < |rs| ==> rs[i].id != id
    ensures RemoveId(rs, id) == rs
  {
    if rs != [] {
      RemoveAbsentId(rs[..|rs| - 1], id);
    }
  }

  /** Deleting the id of the record at `i`, when ids are unique, removes
      exactly that record. */
  lemma {:induction false} RemoveUniqueId(rs: seq<Record>, i: nat)
    requires i < |rs| && UniqueIds(rs)
    ensures RemoveId(rs, rs[i].id) == rs[..i] + rs[i + 1..]
  {
    var id := rs[i].id;
    var init := rs[..|rs| - 1];
    if i == |rs| - 1 {
      RemoveAbsentId(init, id);
      assert rs[..i] + rs[i + 1..] == init;
    } else {
      RemoveUniqueId(init, i);
      assert rs[..i] + rs[i + 1..] == (init[..i] + init[i + 1..]) + [rs[|rs| - 1]];
    }
  }

  /** Deleting the record at `i` leaves the log without exactly that
      record, and every material's stock recomputed from it is as if the
      record had never been written. */
  lemma {:induction false} DeleteRecomputes(rs: seq<Record>, i: nat)
    requires i < |rs| && UniqueIds(rs)
    ensures RemoveId(rs, rs[i].id) == rs[..i] + rs[i + 1..]
    ensures forall m :: Total(RemoveId(rs, rs[i].id), m) == Total(rs, m) - Delta(rs[i], m)
  {
    RemoveUniqueId(rs, i);
    forall m ensures Total(rs[..i] + rs[i + 1..], m) == Total(rs, m) - Delta(rs[i], m) {
      assert rs == rs[..i] + [rs[i]] + rs[i + 1..];
      TotalAppend(rs[..i] + [rs[i]], rs[i + 1..], m);
      TotalSnoc(rs[..i], rs[i], m);
      TotalAppend(rs[..i], rs[i + 1..], m);
    }
  }

  // ---------------------------------------------------------------------
  // The query window

  /** `orderBy('timestamp', 'asc'), limit(50)` over the collection, given
      in ascending timestamp order: its earliest 50 records. */
  function QueryPage(all: seq<Record>): (r: seq<Record>)
    ensures |r| <= PAGE_LIMIT && r <= all
    ensures |all| <= PAGE_LIMIT ==> r == all
    ensures |all| > PAGE_LIMIT ==> |r| == PAGE_LIMIT
  {
    if |all| <= PAGE_LIMIT then all else all[..PAGE_LIMIT]
  }

  /** Once the collection holds 50 records, records written later never
      reach the page, so they change no total the page yields. */
  lemma {:induction false} LaterRecordsUnseen(all: seq<Record>, later: seq<Record>)
    requires |all| >= PAGE_LIMIT
    ensures QueryPage(all + later) == QueryPage(all)
    ensures forall m :: Total(QueryPage(all + later), m) == Total(QueryPage(all), m)
  {
    assert (all + later)[..PAGE_LIMIT] == all[..PAGE_LIMIT];
  }

  /** Deleting the record at `i` of the collection changes the page as
      follows: a record past the page leaves it as it is; a record on the
      page drops out of it, and when the collection held more than 50
      records the 51st moves up onto the page, its contribution replacing
      the deleted one's in every total the page yields. */
  lemma {:induction false} DeleteShiftsPage(all: seq<Record>, i: nat)
    requires i < |all| && UniqueIds(all)
    ensures PAGE_LIMIT <= i ==> QueryPage(RemoveId(all, all[i].id)) == QueryPage(all)
    ensures i < PAGE_LIMIT && |all| <= PAGE_LIMIT ==>
      QueryPage(RemoveId(all, all[i].id)) == all[..i] + all[i + 1..]
    ensures i < PAGE_LIMIT < |all| ==>
      && QueryPage(RemoveId(all, all[i].id)) == all[..i] + all[i + 1..PAGE_LIMIT + 1]
      && forall m :: Total(QueryPage(RemoveId(all, all[i].id)), m) ==
           Total(QueryPage(all), m) - Delta(all[i], m) + Delta(all[PAGE_LIMIT], m)
  {
    RemoveUniqueId(all, i);
    var rest := all[..i] + all[i + 1..];
    if PAGE_LIMIT <= i {
      assert rest[..PAGE_LIMIT] == all[..PAGE_LIMIT];
    } else if PAGE_LIMIT < |all| {
      var front, mid := all[..i], all[i + 1..PAGE_LIMIT];
      assert rest[..PAGE_LIMIT] == front + (mid + [all[PAGE_LIMIT]]);
      assert all[..PAGE_LIMIT] == (front + [all[i]]) + mid;
      assert QueryPage(RemoveId(all, all[i].id)) == front + (mid + [all[PAGE_LIMIT]]);
      assert QueryPage(all) == (front + [all[i]]) + mid;
      forall m ensures Total(front + (mid + [all[PAGE_LIMIT]]), m) ==
        Total((front + [all[i]]) + mid, m) - Delta(all[i], m) + Delta(all[PAGE_LIMIT], m)
      {
        TotalAppend(front, mid + [all[PAGE_LIMIT]], m);
        TotalSnoc(mid, all[PAGE_LIMIT], m);
        TotalAppend(front + [all[i]], mid, m);
        TotalSnoc(front, all[i], m);
      }
    }
  }
}
