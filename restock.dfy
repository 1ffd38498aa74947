/** The restock suggestion, the stock chart's series and the suggestion
    card's banding on the Agrowaste page (src/components/Agrowaste.jsx). */
module Restock {
  import opened Ledger

  /** The `{ type, stock }` object `getMaterialSuggestion` returns. */
  datatype Suggestion = Suggestion(material: string, stock: real)

  /** The `type` of the suggestion shown when no material is in stock. */
  const NO_STOCK := "No Stock/Logs"

  /** `{ type: 'No Stock/Logs', stock: 0 }`. */
  const NoStockSuggestion := Suggestion(NO_STOCK, 0.0)

  /** Below this stock the card recommends adding the material now. */
  const LOW_STOCK := 50.0

  /** `Object.entries(table)`: key and value, in key order. */
  function Entries(t: Table): seq<(string, real)> {
    seq(|t.keys|, i requires 0 <= i < |t.keys| => (t.keys[i], StockOr0(t, t.keys[i])))
  }

  /** `.filter(([, stock]) => stock > 0)`. */
  function PositiveEntries(es: seq<(string, real)>): seq<(string, real)> {
    if es == [] then []
    else
      var init := PositiveEntries(es[..|es| - 1]);
      if es[|es| - 1].1 > 0.0 then init + [es[|es| - 1]] else init
  }

  /** The accumulator of the `reduce`. `Unbounded` is its seed
      `{ type: '', stock: Infinity }`, above every finite stock. */
  datatype Lowest = Unbounded | Best(material: string, stock: real)

  /** The reducer: the entry replaces the accumulator only when it is
      strictly lower, so among equal stocks the earlier entry stays. */
  function Step(acc: Lowest, e: (string, real)): Lowest {
    if acc.Unbounded? || e.1 < acc.stock then Best(e.0, e.1) else acc
  }

  /** `entries.reduce(step, seed)`. */
  function ReduceLowest(es: seq<(string, real)>): Lowest {
    if es == [] then Unbounded else Step(ReduceLowest(es[..|es| - 1]), es[|es| - 1])
  }

  /** The same reduction over the unfiltered entries, skipping those that
      the filter drops; used to reason in terms of key positions. */
  ghost function LowestPositive(es: seq<(string, real)>): Lowest {
    if es == [] then Unbounded
    else
      var acc := LowestPositive(es[..|es| - 1]);
      if es[|es| - 1].1 > 0.0 then Step(acc, es[|es| - 1]) else acc
  }

  lemma {:induction false} FilterThenReduce(es: seq<(string, real)>)
    ensures ReduceLowest(PositiveEntries(es)) == LowestPositive(es)
    ensures PositiveEntries(es) == [] <==> forall j :: 0 <= j < |es| ==> es[j].1 <= 0.0
  {
    if es != [] {
      var init := es[..|es| - 1];
      FilterThenReduce(init);
      var p := PositiveEntries(init);
      if es[|es| - 1].1 > 0.0 {
        assert (p + [es[|es| - 1]])[..|p|] == p;
      }
    }
  }

  /** Over the positive entries, the reduction ends on the first entry of
      least stock: `i` is its position, its stock is positive, no positive
      entry is lower, and every positive entry before it is strictly
      higher. It stays unbounded only when no entry is positive. */
  lemma {:induction false} LowestPositiveIsFirstMinimum(es: seq<(string, real)>) returns (i: nat)
    ensures LowestPositive(es).Unbounded? <==> forall j :: 0 <= j < |es| ==> es[j].1 <= 0.0
    ensures LowestPositive(es).Best? ==>
      && i < |es| && es[i] == (LowestPositive(es).material, LowestPositive(es).stock)
      && es[i].1 > 0.0
      && (forall j :: 0 <= j < |es| && es[j].1 > 0.0 ==> es[i].1 <= es[j].1)
      && (forall j :: 0 <= j < i && es[j].1 > 0.0 ==> es[i].1 < es[j].1)
  {
    if es == [] {
      return 0;
    }
    var n := |es| - 1;
    var init, e := es[..n], es[n];
    assert forall j :: 0 <= j < n ==> es[j] == init[j];
    var k := LowestPositiveIsFirstMinimum(init);
    var acc := LowestPositive(init);
    if e.1 > 0.0 && (acc.Unbounded? || e.1 < acc.stock) {
      i := n;
    } else {
      i := k;
    }
  }

  /** `getMaterialSuggestion(inventory)`: the sentinel when no entry
      has positive stock, else what the reduce over those entries keeps. */
  function GetMaterialSuggestion(t: Table): Suggestion {
    var entries := PositiveEntries(Entries(t));
    if |entries| == 0 then NoStockSuggestion
    else
      var best := ReduceLowest(entries);
      Suggestion(best.material, best.stock)
  }

  /** With no positive stock (the empty table included) the suggestion is
      the sentinel, and only then. Otherwise it names a key with positive
      stock and that stock, no positive stock is lower, and every positive
      key before it in key order has a strictly higher stock: ties go to
      the earliest key. */
  lemma SuggestionIsLowestPositive(t: Table)
    requires WellFormed(t)
    ensures var s := GetMaterialSuggestion(t);
      (forall k :: k in t.stock ==> t.stock[k] <= 0.0) <==> s == NoStockSuggestion
    ensures var s := GetMaterialSuggestion(t);
      s != NoStockSuggestion ==>
      && s.material in t.stock && t.stock[s.material] == s.stock && s.stock > 0.0
      && (forall k :: k in t.stock && t.stock[k] > 0.0 ==> s.stock <= t.stock[k])
      && forall j :: 0 <= j < IndexIn(t.keys, s.material) && t.stock[t.keys[j]] > 0.0 ==>
           t.stock[t.keys[j]] > s.stock
  {
    var es := Entries(t);
    EntriesAt(t);
    FilterThenReduce(es);
    var i := LowestPositiveIsFirstMinimum(es);
    var s := GetMaterialSuggestion(t);
    if PositiveEntries(es) == [] {
      forall k | k in t.stock ensures t.stock[k] <= 0.0 {
        assert es[IndexIn(t.keys, k)].1 == t.stock[k];
      }
    } else {
      assert es[i] == (t.keys[i], t.stock[t.keys[i]]);
      assert IndexIn(t.keys, s.material) == i;
      forall k | k in t.stock && t.stock[k] > 0.0 ensures s.stock <= t.stock[k] {
        assert es[IndexIn(t.keys, k)].1 == t.stock[k];
      }
    }
  }

  /** The entries of a table are its keys, in order, with their values. */
  lemma EntriesAt(t: Table)
    requires WellFormed(t)
    ensures |Entries(t)| == |t.keys|
    ensures forall j :: 0 <= j < |t.keys| ==> Entries(t)[j] == (t.keys[j], t.stock[t.keys[j]])
  {
  }

  /** Among keys at the suggested stock, the suggestion is the earliest
      in key order. */
  lemma TieGoesToEarlierKey(t: Table)
    requires WellFormed(t)
    ensures var s := GetMaterialSuggestion(t);
      s != NoStockSuggestion ==>
      && s.material in t.stock && t.stock[s.material] == s.stock
      && forall k :: k in t.stock && k != s.material && t.stock[k] == s.stock ==>
           IndexIn(t.keys, s.material) < IndexIn(t.keys, k)
  {
    SuggestionIsLowestPositive(t);
    var s := GetMaterialSuggestion(t);
    if s != NoStockSuggestion {
      var i := IndexIn(t.keys, s.material);
      forall k | k in t.stock && k != s.material && t.stock[k] == s.stock
        ensures i < IndexIn(t.keys, k)
      {
        var j := IndexIn(t.keys, k);
        assert t.keys[j] == k && t.stock[t.keys[j]] == s.stock;
      }
    }
  }

  /** The position of `x` in `s` (its first, counted from the front). */
  ghost function IndexIn(s: seq<string>, x: string): (i: nat)
    requires x in s
    ensures i < |s| && s[i] == x
    ensures forall j :: 0 <= j < i ==> s[j] != x
  {
    var init := s[..|s| - 1];
    if x in init then IndexIn(init, x) else |s| - 1
  }

  // ---------------------------------------------------------------------
  // The stock chart

  /** `keys.filter(key => stock[key] > 0)`. */
  function PositiveKeys(keys: seq<string>, stock: map<string, real>): (r: seq<string>)
    requires forall k :: k in keys ==> k in stock
    ensures forall k :: k in r ==> k in keys
  {
    if keys == [] then []
    else
      var k := keys[|keys| - 1];
      var init := PositiveKeys(keys[..|keys| - 1], stock);
      if stock[k] > 0.0 then init + [k] else init
  }

  /** The chart's `labels`: `Object.keys(inventory)` filtered to stock
      > 0. They are exactly the keys with positive stock, each once, in
      key order. */
  function ChartLabels(t: Table): (labels: seq<string>)
    requires WellFormed(t)
    ensures forall k :: k in labels <==> k in t.stock && t.stock[k] > 0.0
    ensures Distinct(labels)
    ensures forall i, j :: 0 <= i < j < |labels| ==> IndexIn(t.keys, labels[i]) < IndexIn(t.keys, labels[j])
  {
    PositiveKeysSpec(t.keys, t.stock);
    PositiveKeys(t.keys, t.stock)
  }

  /** The chart's `data`: `labels.map(key => inventory[key])`. */
  function ChartData(t: Table, labels: seq<string>): seq<real>
    requires forall k :: k in labels ==> k in t.stock
  {
    seq(|labels|, i requires 0 <= i < |labels| => t.stock[labels[i]])
  }

  lemma {:induction false} PositiveKeysSpec(keys: seq<string>, stock: map<string, real>)
    requires forall k :: k in keys ==> k in stock
    requires Distinct(keys)
    ensures forall k :: k in PositiveKeys(keys, stock) <==> k in keys && stock[k] > 0.0
    ensures Distinct(PositiveKeys(keys, stock))
    ensures forall i, j :: 0 <= i < j < |PositiveKeys(keys, stock)| ==>
      IndexIn(keys, PositiveKeys(keys, stock)[i]) < IndexIn(keys, PositiveKeys(keys, stock)[j])
  {
    PositiveKeysMembers(keys, stock);
    PositiveKeysOrder(keys, stock);
    var r := PositiveKeys(keys, stock);
    forall i, j | 0 <= i < j < |r| ensures r[i] != r[j] {
      assert IndexIn(keys, r[i]) < IndexIn(keys, r[j]);
    }
  }

  lemma {:induction false} PositiveKeysMembers(keys: seq<string>, stock: map<string, real>)
    requires forall k :: k in keys ==> k in stock
    ensures forall k :: k in PositiveKeys(keys, stock) <==> k in keys && stock[k] > 0.0
  {
    if keys != [] {
      var init := keys[..|keys| - 1];
      assert keys == init + [keys[|keys| - 1]];
      PositiveKeysMembers(init, stock);
    }
  }

  lemma {:induction false} PositiveKeysOrder(keys: seq<string>, stock: map<string, real>)
    requires forall k :: k in keys ==> k in stock
    requires Distinct(keys)
    ensures forall i, j :: 0 <= i < j < |PositiveKeys(keys, stock)| ==>
      IndexIn(keys, PositiveKeys(keys, stock)[i]) < IndexIn(keys, PositiveKeys(keys, stock)[j])
  {
    if keys != [] {
      var n := |keys| - 1;
      var init, k := keys[..n], keys[n];
      assert keys == init + [k];
      PositiveKeysOrder(init, stock);
      var p := PositiveKeys(init, stock);
      assert forall x :: x in p ==> x in init && IndexIn(keys, x) == IndexIn(init, x) < n;
      assert IndexIn(keys, k) == n;
    }
  }

  lemma {:induction false} PositiveKeysAreFilteredEntries(keys: seq<string>, stock: map<string, real>,
                                                         es: seq<(string, real)>)
    requires forall k :: k in keys ==> k in stock
    requires |es| == |keys| && forall i :: 0 <= i < |es| ==> es[i] == (keys[i], stock[keys[i]])
    ensures |PositiveEntries(es)| == |PositiveKeys(keys, stock)|
    ensures forall i :: 0 <= i < |PositiveEntries(es)| ==>
      PositiveEntries(es)[i] == (PositiveKeys(keys, stock)[i], stock[PositiveKeys(keys, stock)[i]])
  {
    if keys != [] {
      var n := |keys| - 1;
      PositiveKeysAreFilteredEntries(keys[..n], stock, es[..n]);
    }
  }

  /** The chart's bars are exactly the entries the suggestion ranges
      over, in the same order. */
  lemma ChartIsSuggestionDomain(t: Table)
    requires WellFormed(t)
    ensures var labels, data := ChartLabels(t), ChartData(t, ChartLabels(t));
      && |PositiveEntries(Entries(t))| == |labels| == |data|
      && forall i :: 0 <= i < |labels| ==> PositiveEntries(Entries(t))[i] == (labels[i], data[i])
  {
    PositiveKeysAreFilteredEntries(t.keys, t.stock, Entries(t));
  }

  // ---------------------------------------------------------------------
  // The suggestion card

  /** The card's `Recommendation:` line. */
  datatype Recommendation = AddFirstMaterial | AddNow | Stable

  function Recommend(s: Suggestion): Recommendation {
    if s.material == NO_STOCK then AddFirstMaterial
    else if s.stock < LOW_STOCK then AddNow
    else Stable
  }

  /** The card's border, icon and title colour: orange, red or green. */
  datatype Tone = Warning | Danger | Healthy

  function CardTone(s: Suggestion): Tone {
    if s.stock < LOW_STOCK && s.stock > 0.0 then Warning
    else if s.stock == 0.0 && s.material != NO_STOCK then Danger
    else Healthy
  }

  /** The card's icon. */
  datatype Icon = PlusCircle | ExclamationTriangle

  function CardIcon(s: Suggestion): Icon {
    if s.material == NO_STOCK then PlusCircle else ExclamationTriangle
  }

  /** The card for the suggestion of any table: with nothing in stock it
      asks for a first material in green; otherwise (no material being
      literally named like the sentinel) it says `ADD NOW` in orange below
      50 kg and `STABLE` in green from 50 kg. The red branch for a
      zero-stock material never shows, since a suggestion is the sentinel
      or has positive stock. */
  lemma CardBanding(t: Table)
    requires WellFormed(t)
    ensures CardTone(GetMaterialSuggestion(t)) != Danger
    ensures (forall k :: k in t.stock ==> t.stock[k] <= 0.0) ==>
      var s := GetMaterialSuggestion(t);
      Recommend(s) == AddFirstMaterial && CardTone(s) == Healthy && CardIcon(s) == PlusCircle
    ensures NO_STOCK !in t.stock && (exists k :: k in t.stock && t.stock[k] > 0.0) ==>
      var s := GetMaterialSuggestion(t);
      && CardIcon(s) == ExclamationTriangle
      && Recommend(s) == (if s.stock < LOW_STOCK then AddNow else Stable)
      && CardTone(s) == (if s.stock < LOW_STOCK then Warning else Healthy)
  {
    SuggestionIsLowestPositive(t);
  }

  /** A material whose name is the sentinel's own text, with 5 kg, gets
      the sentinel's recommendation and icon; its tone is still the
      orange of a low stock. */
  lemma SentinelNameShadowsMaterial()
    ensures var t := Table(map[NO_STOCK := 5.0], [NO_STOCK]);
      var s := GetMaterialSuggestion(t);
      && s == Suggestion(NO_STOCK, 5.0) && Recommend(s) == AddFirstMaterial && CardIcon(s) == PlusCircle
      && CardTone(s) == Warning
  {
    var t := Table(map[NO_STOCK := 5.0], [NO_STOCK]);
    var es := Entries(t);
    assert es == [(NO_STOCK, 5.0)] && es[..0] == [];
    assert PositiveEntries(es) == [(NO_STOCK, 5.0)];
    assert ReduceLowest([(NO_STOCK, 5.0)]) == Best(NO_STOCK, 5.0) by {
      assert [(NO_STOCK, 5.0)][..0] == [];
    }
  }
}
