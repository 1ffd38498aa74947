/** The Agrowaste page (src/components/Agrowaste.jsx): its state, the
    snapshot listener that rebuilds the stock table, and the submit and
    delete handlers. */
module AgrowastePanel {
  import opened Js
  import opened Ledger
  import opened Restock

  /** The `user` written with every transaction. */
  const WEB_USER := "Admin (Web)"

  /** Why `handleSubmit` refused a transaction. */
  datatype SubmitError =
    | MissingName
    | InvalidQuantity
    | InsufficientStock(material: string, stock: real)

  /** The page's status line (`message`); the texts of the errors that
      the store reports are not modelled. */
  datatype Notice =
    | Blank
    | Refused(error: SubmitError)
    | Recorded(action: Action, quantity: real, material: string)
    | RecordFailed
    | Deleted(material: string, quantity: real)
    | DeleteFailed
    | ReadFailed

  /** The fields of the document a submission writes, bar the id, the
      server timestamp and the user label. */
  datatype Draft = Draft(action: Action, material: string, quantity: real)

  datatype Verdict = Reject(error: SubmitError) | Accept(draft: Draft)

  /** The three guards of `handleSubmit`, in their order: a blank name,
      then a quantity that is NaN or not positive, then a consumption of
      more than the table holds for the trimmed name (a missing key
      reading as 0). */
  function CheckSubmission(name: string, quantity: Number, action: Action, inventory: Table): Verdict {
    var material := Trim(name);
    if material == [] then Reject(MissingName)
    else if IsNaN(quantity) || quantity.value <= 0.0 then Reject(InvalidQuantity)
    else if action == Consume && StockOr0(inventory, material) < quantity.value then
      Reject(InsufficientStock(material, StockOr0(inventory, material)))
    else Accept(Draft(action, material, quantity.value))
  }

  /** The document an accepted submission writes. */
  function NewRecord(d: Draft, id: string, serverTime: int): Record {
    Record(id, d.action, d.material, d.quantity, serverTime, WEB_USER)
  }

  /** The guards in terms of the raw input: a name of white space only is
      refused first; then NaN or a quantity of at most 0; then, for a
      consumption, a quantity above the current stock; everything else is
      accepted with the trimmed name and the parsed quantity. */
  lemma SubmissionGuards(name: string, quantity: Number, action: Action, inventory: Table)
    ensures var v := CheckSubmission(name, quantity, action, inventory);
      (v == Reject(MissingName) <==> forall i :: 0 <= i < |name| ==> IsWhiteSpace(name[i]))
    ensures var v := CheckSubmission(name, quantity, action, inventory);
      v == Reject(InvalidQuantity) <==>
        (exists i :: 0 <= i < |name| && !IsWhiteSpace(name[i])) && (quantity.NaN? || quantity.value <= 0.0)
    ensures var v := CheckSubmission(name, quantity, action, inventory);
      v.Reject? && v.error.InsufficientStock? <==>
        && (exists i :: 0 <= i < |name| && !IsWhiteSpace(name[i])) && quantity.Num? && quantity.value > 0.0
        && action == Consume && StockOr0(inventory, Trim(name)) < quantity.value
    ensures var v := CheckSubmission(name, quantity, action, inventory);
      v.Accept? ==>
        && v.draft == Draft(action, Trim(name), quantity.value) && v.draft.material != []
        && v.draft.quantity > 0.0
        && (action == Consume ==> StockOr0(inventory, v.draft.material) >= v.draft.quantity)
  {
    TrimEmptyIffBlank(name);
  }

  /** An accepted record moves the total of its own material by its
      signed quantity and leaves every other material's total alone. */
  lemma AcceptedRecordDelta(rs: seq<Record>, d: Draft, id: string, serverTime: int, m: string)
    requires d.action == Add || d.action == Consume
    ensures Total(rs + [NewRecord(d, id, serverTime)], m) ==
      Total(rs, m) + (if m != d.material then 0.0 else if d.action == Add then d.quantity else -d.quantity)
  {
    TotalSnoc(rs, NewRecord(d, id, serverTime), m);
  }

  /** Over the table the listener built from log `rs`, an accepted
      consumption never takes its material's recomputed total below 0. */
  lemma AcceptedConsumeKeepsStock(rs: seq<Record>, name: string, q: real, id: string, serverTime: int)
    requires CheckSubmission(name, Num(q), Consume, Inventory(Reverse(rs))).Accept?
    ensures Total(rs + [NewRecord(Draft(Consume, Trim(name), q), id, serverTime)], Trim(name)) >= 0.0
  {
    var m := Trim(name);
    ShownStockIsTotal(rs, m);
    AcceptedRecordDelta(rs, Draft(Consume, m, q), id, serverTime, m);
  }

  /** While the collection holds fewer than 50 records the page is the
      whole collection, and a record written now lands on the next page:
      consuming exactly the shown stock of a named material is accepted,
      and the next page shows that material at 0. */
  lemma ConsumeAllLeavesZero(all: seq<Record>, name: string, id: string, serverTime: int)
    requires |all| < PAGE_LIMIT
    requires Trim(name) != [] && Total(QueryPage(all), Trim(name)) > 0.0
    ensures var m, q := Trim(name), Total(QueryPage(all), Trim(name));
      var r := NewRecord(Draft(Consume, m, q), id, serverTime);
      && CheckSubmission(name, Num(q), Consume, Inventory(Reverse(QueryPage(all)))) == Accept(Draft(Consume, m, q))
      && QueryPage(all + [r]) == all + [r]
      && var after := Inventory(Reverse(QueryPage(all + [r])));
         m in after.stock && after.stock[m] == 0.0
  {
    var m, q := Trim(name), Total(all, Trim(name));
    var r := NewRecord(Draft(Consume, m, q), id, serverTime);
    assert QueryPage(all) == all;
    assert QueryPage(all + [r]) == all + [r];
    ShownStockIsTotal(all, m);
    ShownStockIsTotal(all + [r], m);
    MaterialsSnoc(all, r);
    AcceptedRecordDelta(all, Draft(Consume, m, q), id, serverTime, m);
  }

  /** Once the collection holds 50 records the page no longer changes, so
      the stock check never sees the page's own consumptions: consuming
      the shown stock is accepted, the next page shows the same table, and
      the same consumption is accepted again, while the collection's own
      total drops by the quantity each time. When the page held all of the
      material's records, two such consumptions take the collection's
      total below 0. */
  lemma FullPageConsumeRepeats(all: seq<Record>, name: string, id1: string, t1: int, id2: string, t2: int)
    requires |all| >= PAGE_LIMIT
    requires Trim(name) != [] && Total(QueryPage(all), Trim(name)) > 0.0
    ensures var m, q := Trim(name), Total(QueryPage(all), Trim(name));
      var d := Draft(Consume, m, q);
      var r1, r2 := NewRecord(d, id1, t1), NewRecord(d, id2, t2);
      && CheckSubmission(name, Num(q), Consume, Inventory(Reverse(QueryPage(all)))) == Accept(d)
      && Inventory(Reverse(QueryPage(all + [r1]))) == Inventory(Reverse(QueryPage(all)))
      && CheckSubmission(name, Num(q), Consume, Inventory(Reverse(QueryPage(all + [r1])))) == Accept(d)
      && Total(all + [r1] + [r2], m) == Total(all, m) - 2.0 * q
      && (Total(all, m) == q ==> Total(all + [r1] + [r2], m) < 0.0)
  {
    var m, q := Trim(name), Total(QueryPage(all), Trim(name));
    var d := Draft(Consume, m, q);
    var r1, r2 := NewRecord(d, id1, t1), NewRecord(d, id2, t2);
    LaterRecordsUnseen(all, [r1]);
    ShownStockIsTotal(QueryPage(all), m);
    AcceptedRecordDelta(all, d, id1, t1, m);
    AcceptedRecordDelta(all + [r1], d, id2, t2, m);
  }

  /** Over the table the listener shows, the suggestion wins a tie with
      every other material at the same stock through recency: the tied
      material's latest record is older than the suggested one's. */
  lemma SuggestionTieGoesToLatest(rs: seq<Record>)
    ensures Inventory(Reverse(rs)).stock.Keys == Materials(rs)
    ensures var t := Inventory(Reverse(rs)); var s := GetMaterialSuggestion(t);
      s != NoStockSuggestion ==>
      && s.material in Materials(rs)
      && forall m :: m in Materials(rs) && m != s.material && t.stock[m] == s.stock ==>
           LastIndex(rs, m) < LastIndex(rs, s.material)
  {
    var t := Inventory(Reverse(rs));
    InventoryIsTotals(Reverse(rs));
    MaterialsReverse(rs);
    ReversedKeyOrder(rs);
    TieGoesToEarlierKey(t);
    var s := GetMaterialSuggestion(t);
    if s != NoStockSuggestion {
      forall m | m in Materials(rs) && m != s.material && t.stock[m] == s.stock
        ensures LastIndex(rs, m) < LastIndex(rs, s.material)
      {
        var i, j := IndexIn(t.keys, s.material), IndexIn(t.keys, m);
        assert t.keys[i] == s.material && t.keys[j] == m;
      }
    }
  }

  /** Without the `reverse()` the same tie would go the other way: to the
      material whose first record is the oldest. */
  lemma AscendingTieGoesToEarliest(rs: seq<Record>)
    ensures Inventory(rs).stock.Keys == Materials(rs)
    ensures var t := Inventory(rs); var s := GetMaterialSuggestion(t);
      s != NoStockSuggestion ==>
      && s.material in Materials(rs)
      && forall m :: m in Materials(rs) && m != s.material && t.stock[m] == s.stock ==>
           FirstIndex(rs, s.material) < FirstIndex(rs, m)
  {
    var t := Inventory(rs);
    InventoryIsTotals(rs);
    InventoryKeyOrder(rs);
    TieGoesToEarlierKey(t);
    var s := GetMaterialSuggestion(t);
    if s != NoStockSuggestion {
      forall m | m in Materials(rs) && m != s.material && t.stock[m] == s.stock
        ensures FirstIndex(rs, s.material) < FirstIndex(rs, m)
      {
        var i, j := IndexIn(t.keys, s.material), IndexIn(t.keys, m);
        assert t.keys[i] == s.material && t.keys[j] == m;
      }
    }
  }

  /** Reverses `a` in place, as `fetchedLogs.reverse()` does. */
  method ReverseInPlace(a: array<Record>)
    modifies a
    ensures a[..] == Reverse(old(a[..]))
  {
    var lo, hi := 0, a.Length - 1;
    while lo < hi
      invariant 0 <= lo && 2 * lo <= a.Length && hi == a.Length - 1 - lo
      invariant forall k :: 0 <= k < lo || hi < k < a.Length ==> a[k] == old(a[a.Length - 1 - k])
      invariant forall k :: lo <= k <= hi ==> a[k] == old(a[k])
    {
      a[lo], a[hi] := a[hi], a[lo];
      lo, hi := lo + 1, hi - 1;
    }
    assert forall k :: 0 <= k < a.Length ==> a[k] == old(a[a.Length - 1 - k]);
  }

  /** The `forEach` over the fetched logs into a fresh
      `calculatedInventory`. */
  method Tally(logs: array<Record>) returns (stock: map<string, real>, keys: seq<string>)
    ensures Table(stock, keys) == Inventory(logs[..])
  {
    stock, keys := map[], [];
    var i := 0;
    while i < logs.Length
      invariant 0 <= i <= logs.Length
      invariant Table(stock, keys) == Inventory(logs[..i])
    {
      var log := logs[i];
      var qty := log.quantity;
      var material := log.material;
      if material !in stock {
        stock := stock[material := 0.0];
        keys := keys + [material];
      }
      match log.action {
        case Add => stock := stock[material := stock[material] + qty];
        case Consume => stock := stock[material := stock[material] - qty];
        case Other(_) =>
      }
      assert logs[..i + 1] == logs[..i] + [log];
      i := i + 1;
    }
    assert logs[..] == logs[..i];
  }

  /** The page's state. */
  class Page {
    var inventory: map<string, real>
    /** The insertion order of `inventory`'s keys. */
    var inventoryKeys: seq<string>
    var activityLog: seq<Record>
    var loading: bool
    var message: Notice
    var materialName: string
    var quantityKg: string
    var activityType: Action
    /** The transaction collection as this page's own writes leave it:
        `addDoc` appends, `deleteDoc` removes. */
    var collection: seq<Record>

    ghost predicate Valid()
      reads this
    {
      WellFormed(Table(inventory, inventoryKeys))
    }

    /** The stock table the page currently shows. */
    function Stock(): Table
      reads this
    {
      Table(inventory, inventoryKeys)
    }

    /** The chart's labels for the table the page shows: exactly its
        materials with positive stock, each once, in key order. */
    function ShownLabels(): (labels: seq<string>)
      reads this
      requires Valid()
      ensures forall k :: k in labels <==> k in inventory && inventory[k] > 0.0
      ensures Distinct(labels)
      ensures forall i, j :: 0 <= i < j < |labels| ==>
        IndexIn(inventoryKeys, labels[i]) < IndexIn(inventoryKeys, labels[j])
    {
      ChartLabels(Stock())
    }

    constructor ()
      ensures Valid() && Stock() == EmptyTable
      ensures activityLog == [] && loading && message == Blank
      ensures materialName == "" && quantityKg == "" && activityType == Add
      ensures collection == []
    {
      inventory, inventoryKeys := map[], [];
      activityLog := [];
      loading := true;
      message := Blank;
      materialName, quantityKg, activityType := "", "", Add;
      collection := [];
    }

    /** The log listener: reverse the fetched page in place for the
        newest-first table, then fold it into a fresh stock table. The
        table's values are each material's adds minus consumes over the
        page, as the oldest-first fold would give them. */
    method OnLogSnapshot(fetched: array<Record>)
      modifies fetched, this`activityLog, this`inventory, this`inventoryKeys, this`loading
      ensures Valid()
      ensures fetched[..] == Reverse(old(fetched[..])) && activityLog == fetched[..]
      ensures Stock() == Inventory(Reverse(old(fetched[..])))
      ensures inventory == Inventory(old(fetched[..])).stock
      ensures inventory.Keys == Materials(old(fetched[..]))
      ensures forall m :: m in inventory ==> inventory[m] == Total(old(fetched[..]), m)
      ensures !loading
    {
      ghost var page := fetched[..];
      ReverseInPlace(fetched);
      activityLog := fetched[..];

      var stock, keys := Tally(fetched);
      inventory, inventoryKeys := stock, keys;
      loading := false;

      InventoryIsTotals(fetched[..]);
      ReverseKeepsStock(page);
      InventoryIsTotals(page);
    }

    /** The listener's error callback. */
    method OnLogError()
      modifies this`message, this`loading
      ensures message == ReadFailed && !loading
    {
      message := ReadFailed;
      loading := false;
    }

    /** `handleSubmit`: the guards of `CheckSubmission` against the
        current table, each refusing with its message and writing nothing;
        once past them, exactly one document is written (when the store
        accepts it) and the form is cleared. `parsed` is
        `parseFloat(quantityKg)`; `id` and `serverTime` are what the store
        assigns. The table itself is left to the next snapshot. */
    method HandleSubmit(parsed: Number, id: string, serverTime: int, writeSucceeds: bool)
      modifies this`collection, this`message, this`materialName, this`quantityKg
      ensures var v := CheckSubmission(old(materialName), parsed, activityType, Stock());
        match v
        case Reject(e) =>
          collection == old(collection) && message == Refused(e)
          && materialName == old(materialName) && quantityKg == old(quantityKg)
        case Accept(d) =>
          if writeSucceeds then
            collection == old(collection) + [NewRecord(d, id, serverTime)]
            && message == Recorded(d.action, d.quantity, d.material)
            && materialName == "" && quantityKg == ""
          else
            collection == old(collection) && message == RecordFailed
            && materialName == old(materialName) && quantityKg == old(quantityKg)
    {
      var material := Trim(materialName);
      if material == [] {
        message := Refused(MissingName);
        return;
      }
      if IsNaN(parsed) || parsed.value <= 0.0 {
        message := Refused(InvalidQuantity);
        return;
      }
      var current := StockOr0(Stock(), material);
      if activityType == Consume && current < parsed.value {
        message := Refused(InsufficientStock(material, current));
        return;
      }
      var draft := Draft(activityType, material, parsed.value);
      if writeSucceeds {
        collection := collection + [NewRecord(draft, id, serverTime)];
        message := Recorded(activityType, parsed.value, material);
        quantityKg := "";
        materialName := "";
      } else {
        message := RecordFailed;
      }
    }

    /** `handleDeleteLog`: asks the store to delete document `id` and
        reports it; the table is left to the next snapshot. Deleting an id
        that is not there succeeds and changes nothing. */
    method HandleDeleteLog(id: string, material: string, quantity: real, deleteSucceeds: bool)
      modifies this`collection, this`message
      ensures deleteSucceeds ==> collection == RemoveId(old(collection), id) && message == Deleted(material, quantity)
      ensures !deleteSucceeds ==> collection == old(collection) && message == DeleteFailed
    {
      if deleteSucceeds {
        collection := RemoveId(collection, id);
        message := Deleted(material, quantity);
      } else {
        message := DeleteFailed;
      }
    }
  }
}
