/**
 * `convertToYaml`: the rows are folded, in input order, into one accumulator
 * per base key; the accumulators, in the order their keys were first seen,
 * pass the completeness filter and the category chain into four lists; each
 * list is projected to its output shape.
 *
 * Two readings of the same function are given and proved equal. The
 * operational one follows the code: Step/Accumulate (the first loop), Values
 * (`Object.values`), Selected (the second loop), Convert, and the methods
 * Group, Categorize and ConvertToYaml that run the loops. The declarative one
 * has no map and no loop: Keys, FirstOccurrences, LastWrite, Merged and
 * PlacedKeys say which records come out, in which order, with which fields.
 */
module Conversion {
  import opened Wrappers
  import opened Strings
  import opened Entries
  import opened Rules

  // ---------------------------------------------------------------------
  // Sequences of keys
  // ---------------------------------------------------------------------

  /** Position of the first occurrence of x in xs. */
  function IndexOf(xs: seq<string>, x: string): (i: nat)
    requires x in xs
    ensures i < |xs| && xs[i] == x && x !in xs[..i]
  {
    if xs[0] == x then 0
    else
      var j := IndexOf(xs[1..], x);
      assert xs[..j + 1] == [xs[0]] + xs[1..][..j];
      j + 1
  }

  /** Appending an element moves no first occurrence. */
  lemma {:induction false} IndexOfAppend(xs: seq<string>, x: string, y: string)
    requires y in xs
    ensures IndexOf(xs + [x], y) == IndexOf(xs, y)
  {
    if xs[0] != y {
      assert (xs + [x])[1..] == xs[1..] + [x];
      IndexOfAppend(xs[1..], x, y);
    }
  }

  predicate Distinct(xs: seq<string>)
  {
    forall i, j :: 0 <= i < j < |xs| ==> xs[i] != xs[j]
  }

  /**
   * The distinct elements of xs, each once, ordered by where it first
   * appears in xs.
   */
  function FirstOccurrences(xs: seq<string>): (ys: seq<string>)
    ensures forall x :: x in ys <==> x in xs
    ensures forall i, j :: 0 <= i < j < |ys| ==> IndexOf(xs, ys[i]) < IndexOf(xs, ys[j])
  {
    if xs == [] then []
    else
      var init, x := xs[..|xs| - 1], xs[|xs| - 1];
      assert xs == init + [x];
      assert forall y :: y in init ==> IndexOf(xs, y) == IndexOf(init, y) by {
        forall y | y in init ensures IndexOf(xs, y) == IndexOf(init, y) {
          IndexOfAppend(init, x, y);
        }
      }
      var ys := FirstOccurrences(init);
      if x in ys then ys else ys + [x]
  }

  /** A repeated element is dropped, a new one is appended. */
  lemma FirstOccurrencesSnoc(xs: seq<string>, x: string)
    ensures FirstOccurrences(xs + [x]) ==
      if x in xs then FirstOccurrences(xs) else FirstOccurrences(xs) + [x]
  {
    assert (xs + [x])[..|xs|] == xs;
  }

  /** Elements ordered by strictly increasing first positions are distinct. */
  lemma FirstSeenOrderIsDistinct(ys: seq<string>, xs: seq<string>)
    requires forall y :: y in ys ==> y in xs
    requires forall i, j :: 0 <= i < j < |ys| ==> IndexOf(xs, ys[i]) < IndexOf(xs, ys[j])
    ensures Distinct(ys)
  {
  }

  // ---------------------------------------------------------------------
  // Declarative reading: which keys, which field values
  // ---------------------------------------------------------------------

  /**
   * What one row contributes to the first loop: nothing when it is ignored;
   * otherwise its base key, the field it assigns (if any) and its address.
   */
  datatype Effect = Skip | Touch(key: string, field: Option<Field>, address: string)

  function EffectOf(row: Row): Effect
  {
    if IsIgnored(row.description) then Skip else Touch(BaseKey(row.description), FieldFor(row), row.address)
  }

  /** The effects of the rows, in input order. */
  function Effects(rows: seq<Row>): (es: seq<Effect>)
    ensures |es| == |rows|
    ensures forall i :: 0 <= i < |rows| ==> es[i] == EffectOf(rows[i])
  {
    seq(|rows|, i requires 0 <= i < |rows| => EffectOf(rows[i]))
  }

  /** The keys the effects touch, in order (with repetitions). */
  function KeysOf(es: seq<Effect>): seq<string>
  {
    if es == [] then []
    else
      var e := es[|es| - 1];
      KeysOf(es[..|es| - 1]) + (if e.Touch? then [e.key] else [])
  }

  /** The base keys of the rows that pass the ignore filter, in input order (with repetitions). */
  function Keys(rows: seq<Row>): seq<string>
  {
    KeysOf(Effects(rows))
  }

  /** Every touched key is among the keys. */
  lemma {:induction false} KeysOfComplete(es: seq<Effect>, i: nat)
    requires i < |es| && es[i].Touch?
    ensures es[i].key in KeysOf(es)
  {
    var init := es[..|es| - 1];
    if i < |init| {
      KeysOfComplete(init, i);
      assert init[i] == es[i];
    }
  }

  /** Every key comes from an effect that touches it. */
  lemma {:induction false} KeysOfSound(es: seq<Effect>, key: string)
    requires key in KeysOf(es)
    ensures exists i :: 0 <= i < |es| && es[i].Touch? && es[i].key == key
  {
    var init, e := es[..|es| - 1], es[|es| - 1];
    if e.Touch? && e.key == key {
      assert es[|es| - 1] == e;
    } else {
      KeysOfSound(init, key);
      var i :| 0 <= i < |init| && init[i].Touch? && init[i].key == key;
      assert es[i] == init[i];
    }
  }

  /** A key is in Keys exactly when some row that is not ignored has it as its base key. */
  lemma KeysIff(rows: seq<Row>, key: string)
    ensures key in Keys(rows) <==>
      exists i :: 0 <= i < |rows| && !IsIgnored(rows[i].description) && BaseKey(rows[i].description) == key
  {
    var es := Effects(rows);
    if key in Keys(rows) {
      KeysOfSound(es, key);
      var i :| 0 <= i < |es| && es[i].Touch? && es[i].key == key;
      assert es[i] == EffectOf(rows[i]);
    }
    forall i | 0 <= i < |rows| && !IsIgnored(rows[i].description) && BaseKey(rows[i].description) == key
      ensures key in Keys(rows)
    {
      assert es[i] == EffectOf(rows[i]);
      KeysOfComplete(es, i);
    }
  }

  /** One more row adds its key, unless it is ignored. */
  lemma KeysSnoc(rows: seq<Row>, row: Row)
    ensures Keys(rows + [row]) == Keys(rows) + (if IsIgnored(row.description) then [] else [BaseKey(row.description)])
  {
    var es := Effects(rows + [row]);
    assert es[..|rows|] == Effects(rows);
    assert es[|rows|] == EffectOf(row);
  }

  /** The effect assigns field f of the accumulator for key. */
  predicate Assigns(e: Effect, key: string, f: Field)
  {
    e.Touch? && e.key == key && e.field == Some(f)
  }

  /** The row assigns field f of the accumulator for key. */
  predicate Writes(row: Row, key: string, f: Field)
  {
    !IsIgnored(row.description) && BaseKey(row.description) == key && FieldFor(row) == Some(f)
  }

  /** The address of the last effect that assigns field f of key; None if none does. */
  function LastWriteOf(es: seq<Effect>, key: string, f: Field): Option<string>
  {
    if es == [] then None
    else
      var e := es[|es| - 1];
      if Assigns(e, key, f) then Some(e.address) else LastWriteOf(es[..|es| - 1], key, f)
  }

  /** The address of the last row that assigns field f of key's accumulator; None if no row does. */
  function LastWrite(rows: seq<Row>, key: string, f: Field): Option<string>
  {
    LastWriteOf(Effects(rows), key, f)
  }

  /** An effect that assigns the field makes LastWriteOf present. */
  lemma {:induction false} LastWriteOfFinds(es: seq<Effect>, key: string, f: Field, i: nat)
    requires i < |es| && Assigns(es[i], key, f)
    ensures LastWriteOf(es, key, f).Some?
  {
    var init := es[..|es| - 1];
    if i < |init| && !Assigns(es[|es| - 1], key, f) {
      assert init[i] == es[i];
      LastWriteOfFinds(init, key, f, i);
    }
  }

  /** Position i holds the last effect that assigns the field, and it supplies LastWriteOf. */
  predicate IsLastAssignment(es: seq<Effect>, key: string, f: Field, i: nat)
  {
    && i < |es|
    && Assigns(es[i], key, f)
    && LastWriteOf(es, key, f) == Some(es[i].address)
    && (forall j :: i < j < |es| ==> !Assigns(es[j], key, f))
  }

  /** A present LastWriteOf comes from the last assigning effect. */
  lemma {:induction false} LastWriteOfWitness(es: seq<Effect>, key: string, f: Field) returns (i: nat)
    requires LastWriteOf(es, key, f).Some?
    ensures IsLastAssignment(es, key, f, i)
  {
    var init, e := es[..|es| - 1], es[|es| - 1];
    if Assigns(e, key, f) {
      i := |es| - 1;
    } else {
      i := LastWriteOfWitness(init, key, f);
      assert es[i] == init[i];
      forall j | i < j < |es| ensures !Assigns(es[j], key, f) {
        if j < |init| {
          assert es[j] == init[j];
        }
      }
    }
  }

  /**
   * Last writer wins: LastWrite holds the address of a row that assigns the
   * field and after which no row does; it is None exactly when no row does.
   */
  lemma LastWriteIsLast(rows: seq<Row>, key: string, f: Field)
    ensures LastWrite(rows, key, f).None? <==> forall i :: 0 <= i < |rows| ==> !Writes(rows[i], key, f)
    ensures LastWrite(rows, key, f).Some? ==>
      exists i :: 0 <= i < |rows| && Writes(rows[i], key, f) && LastWrite(rows, key, f) == Some(rows[i].address) &&
        (forall j :: i < j < |rows| ==> !Writes(rows[j], key, f))
  {
    var es := Effects(rows);
    if LastWrite(rows, key, f).Some? {
      var i := LastWriteOfWitness(es, key, f);
      assert es[i] == EffectOf(rows[i]);
      forall j | i < j < |rows| ensures !Writes(rows[j], key, f) {
        assert es[j] == EffectOf(rows[j]);
      }
    } else {
      forall i | 0 <= i < |rows| ensures !Writes(rows[i], key, f) {
        assert es[i] == EffectOf(rows[i]);
        if Assigns(es[i], key, f) {
          LastWriteOfFinds(es, key, f, i);
        }
      }
    }
  }

  /** One more row replaces the field's last write exactly when it assigns that field. */
  lemma LastWriteSnoc(rows: seq<Row>, row: Row, key: string, f: Field)
    ensures LastWrite(rows + [row], key, f) == if Writes(row, key, f) then Some(row.address) else LastWrite(rows, key, f)
  {
    var es := Effects(rows + [row]);
    assert es[..|rows|] == Effects(rows);
    assert es[|rows|] == EffectOf(row);
  }

  /** Only a key that some effect touches can have a field assigned. */
  lemma {:induction false} LastWriteOfNeedsKey(es: seq<Effect>, key: string, f: Field)
    requires LastWriteOf(es, key, f).Some?
    ensures key in KeysOf(es)
  {
    if !Assigns(es[|es| - 1], key, f) {
      LastWriteOfNeedsKey(es[..|es| - 1], key, f);
    }
  }

  /**
   * The record the effects build for key: a fresh record named key, with each
   * assignment to key applied in order. Every field ends up holding the last
   * assignment to it.
   */
  function MergedOf(es: seq<Effect>, key: string): (e: YamlEntry)
    ensures e.name == key
    ensures forall f :: e.Get(f) == LastWriteOf(es, key, f)
  {
    if es == [] then NewEntry(key)
    else
      var m, last := MergedOf(es[..|es| - 1], key), es[|es| - 1];
      if last.Touch? && last.key == key && last.field.Some? then m.Set(last.field.value, last.address) else m
  }

  /** The record that results for key: its name is the key and every field holds the last write to it. */
  function Merged(rows: seq<Row>, key: string): (e: YamlEntry)
    ensures e.name == key
    ensures forall f :: e.Get(f) == LastWrite(rows, key, f)
  {
    MergedOf(Effects(rows), key)
  }

  /** No row ever assigns `operation_mode_address`. */
  lemma {:induction false} NoOperationModeAddress(rows: seq<Row>, key: string)
    ensures Merged(rows, key).operationModeAddress == None
  {
    LastWriteIsLast(rows, key, OperationModeAddress);
  }

  /** The records the effects build for keys, in the order of keys. */
  function MergedAll(effects: seq<Effect>, keys: seq<string>): (records: seq<YamlEntry>)
    ensures |records| == |keys|
  {
    if keys == [] then [] else MergedAll(effects, keys[..|keys| - 1]) + [MergedOf(effects, keys[|keys| - 1])]
  }

  /** Position i of MergedAll holds the record of the i-th key. */
  lemma {:induction false} MergedAllAt(effects: seq<Effect>, keys: seq<string>)
    ensures forall i :: 0 <= i < |keys| ==> MergedAll(effects, keys)[i] == MergedOf(effects, keys[i])
  {
    if keys != [] {
      var init := keys[..|keys| - 1];
      MergedAllAt(effects, init);
      assert forall i :: 0 <= i < |init| ==> init[i] == keys[i];
    }
  }

  /** The keys among `keys` whose record is placed in list c, in the order of `keys`. */
  function KeysPlaced(effects: seq<Effect>, keys: seq<string>, c: Category): (placed: seq<string>)
    ensures forall k :: k in placed <==> k in keys && Placement(MergedOf(effects, k)) == Some(c)
  {
    if keys == [] then []
    else
      var k := keys[|keys| - 1];
      KeysPlaced(effects, keys[..|keys| - 1], c) + (if Placement(MergedOf(effects, k)) == Some(c) then [k] else [])
  }

  /** The keys that reach list c: first-seen order, filtered by placement. */
  function PlacedKeys(rows: seq<Row>, c: Category): seq<string>
  {
    KeysPlaced(Effects(rows), FirstOccurrences(Keys(rows)), c)
  }

  /** Filtering keeps the first-seen order of the keys it keeps. */
  lemma {:induction false} KeysPlacedFirstSeen(effects: seq<Effect>, keys: seq<string>, c: Category, xs: seq<string>)
    requires forall k :: k in keys ==> k in xs
    requires forall i, j :: 0 <= i < j < |keys| ==> IndexOf(xs, keys[i]) < IndexOf(xs, keys[j])
    ensures forall i, j :: 0 <= i < j < |KeysPlaced(effects, keys, c)| ==>
      IndexOf(xs, KeysPlaced(effects, keys, c)[i]) < IndexOf(xs, KeysPlaced(effects, keys, c)[j])
  {
    if keys != [] {
      var init, k := keys[..|keys| - 1], keys[|keys| - 1];
      assert forall i :: 0 <= i < |init| ==> init[i] == keys[i];
      KeysPlacedFirstSeen(effects, init, c, xs);
      var p := KeysPlaced(effects, init, c);
      if Placement(MergedOf(effects, k)) == Some(c) {
        assert KeysPlaced(effects, keys, c) == p + [k];
        forall y | y in p ensures IndexOf(xs, y) < IndexOf(xs, k) {
          var i :| 0 <= i < |init| && init[i] == y;
          assert keys[i] == y;
        }
      } else {
        assert KeysPlaced(effects, keys, c) == p;
      }
    }
  }

  /**
   * List c receives exactly the keys of rows that are not ignored whose merged
   * record is placed in c, each once, in the order their keys first appear.
   */
  lemma PlacedKeysSpec(rows: seq<Row>, c: Category)
    ensures forall k :: k in PlacedKeys(rows, c) <==> k in Keys(rows) && Placement(Merged(rows, k)) == Some(c)
    ensures forall i, j :: 0 <= i < j < |PlacedKeys(rows, c)| ==>
      IndexOf(Keys(rows), PlacedKeys(rows, c)[i]) < IndexOf(Keys(rows), PlacedKeys(rows, c)[j])
    ensures Distinct(PlacedKeys(rows, c))
  {
    KeysPlacedFirstSeen(Effects(rows), FirstOccurrences(Keys(rows)), c, Keys(rows));
    FirstSeenOrderIsDistinct(PlacedKeys(rows, c), Keys(rows));
  }

  // ---------------------------------------------------------------------
  // Operational reading: the first loop
  // ---------------------------------------------------------------------

  /** `groupedEntries`: the accumulators by key, with the order the keys were inserted in. */
  datatype Groups = Groups(order: seq<string>, entries: map<string, YamlEntry>)
  {
    /** Keys are inserted once, the map holds exactly the inserted keys, and each accumulator is named by its key. */
    ghost predicate Valid()
    {
      && Distinct(order)
      && (forall k :: k in entries <==> k in order)
      && (forall k :: k in entries ==> entries[k].name == k)
    }
  }

  /** One pass of the first loop's body. */
  function Step(g: Groups, row: Row): (g': Groups)
    ensures g.Valid() ==> g'.Valid()
  {
    if IsIgnored(row.description) then g
    else
      var key := BaseKey(row.description);
      var created := if key in g.entries then g else Groups(g.order + [key], g.entries[key := NewEntry(key)]);
      match FieldFor(row)
      case None => created
      case Some(f) => created.(entries := created.entries[key := created.entries[key].Set(f, row.address)])
  }

  /** `groupedEntries` after the first loop has run over rows. */
  function Accumulate(rows: seq<Row>): (g: Groups)
    ensures g.Valid()
  {
    if rows == [] then Groups([], map[]) else Step(Accumulate(rows[..|rows| - 1]), rows[|rows| - 1])
  }

  /** An ignored row changes nothing, wherever it stands in the input. */
  lemma {:induction false} IgnoredRowIsInert(before: seq<Row>, row: Row, after: seq<Row>)
    requires IsIgnored(row.description)
    ensures Accumulate(before + [row] + after) == Accumulate(before + after)
  {
    if after == [] {
      assert before + [row] + after == before + [row];
      assert before + after == before;
      AccumulateSnoc(before, row);
    } else {
      var init, last := after[..|after| - 1], after[|after| - 1];
      IgnoredRowIsInert(before, row, init);
      assert before + [row] + after == (before + [row] + init) + [last];
      assert before + after == (before + init) + [last];
      AccumulateSnoc(before + [row] + init, last);
      AccumulateSnoc(before + init, last);
    }
  }

  /** The effects of one more row are those of the rows, then the row's. */
  lemma EffectsSnoc(rows: seq<Row>, row: Row)
    ensures Effects(rows + [row]) == Effects(rows) + [EffectOf(row)]
  {
    assert Effects(rows + [row])[|rows|] == EffectOf((rows + [row])[|rows|]);
  }

  /** What one step does to the accumulator of key k. */
  lemma StepEntry(g: Groups, row: Row, k: string)
    requires g.Valid()
    requires k in Step(g, row).entries
    ensures Step(g, row).entries[k] ==
      var base := if k in g.entries then g.entries[k] else NewEntry(k);
      if !IsIgnored(row.description) && BaseKey(row.description) == k && FieldFor(row).Some?
      then base.Set(FieldFor(row).value, row.address)
      else base
  {
  }

  /** The first loop over one more row is one more step. */
  lemma AccumulateSnoc(rows: seq<Row>, row: Row)
    ensures Accumulate(rows + [row]) == Step(Accumulate(rows), row)
  {
    assert (rows + [row])[..|rows|] == rows;
  }

  /** A step by a row that assigns field f of key: the key is created if new, then the field is set. */
  lemma StepAssigns(g: Groups, row: Row, key: string, f: Field)
    requires !IsIgnored(row.description) && BaseKey(row.description) == key && FieldFor(row) == Some(f)
    ensures Step(g, row) ==
      if key in g.entries then Groups(g.order, g.entries[key := g.entries[key].Set(f, row.address)])
      else Groups(g.order + [key], g.entries[key := NewEntry(key).Set(f, row.address)])
  {
  }

  /** What one step does to the key order: a key not seen before is appended. */
  lemma StepOrder(g: Groups, row: Row)
    ensures Step(g, row).order ==
      if IsIgnored(row.description) || BaseKey(row.description) in g.entries then g.order
      else g.order + [BaseKey(row.description)]
  {
  }

  /** The key order after the first loop is the first-seen order of the keys. */
  lemma {:induction false} AccumulateOrder(rows: seq<Row>)
    ensures Accumulate(rows).order == FirstOccurrences(Keys(rows))
  {
    if rows != [] {
      var init, row := rows[..|rows| - 1], rows[|rows| - 1];
      assert rows == init + [row];
      AccumulateOrder(init);
      KeysSnoc(init, row);
      var g := Accumulate(init);
      StepOrder(g, row);
      if IsIgnored(row.description) {
        assert Accumulate(rows) == Step(g, row) == g;
        assert Keys(rows) == Keys(init);
      } else {
        var key := BaseKey(row.description);
        assert Keys(rows) == Keys(init) + [key];
        FirstOccurrencesSnoc(Keys(init), key);
        assert key in g.entries <==> key in g.order;
      }
    }
  }

  /** After the first loop, every accumulator is the record of last writes to its key. */
  lemma {:induction false} AccumulateIsMerged(rows: seq<Row>)
    ensures forall k :: k in Accumulate(rows).entries ==> Accumulate(rows).entries[k] == Merged(rows, k)
  {
    if rows != [] {
      var init, row := rows[..|rows| - 1], rows[|rows| - 1];
      assert rows == init + [row];
      AccumulateIsMerged(init);
      AccumulateOrder(init);
      var g := Accumulate(init);
      EffectsSnoc(init, row);
      forall k | k in Accumulate(rows).entries ensures Accumulate(rows).entries[k] == Merged(rows, k) {
        StepEntry(g, row, k);
        assert (Effects(init) + [EffectOf(row)])[..|init|] == Effects(init);
        if k !in g.entries {
          forall f ensures LastWrite(init, k, f) == None {
            if LastWrite(init, k, f).Some? {
              LastWriteOfNeedsKey(Effects(init), k, f);
            }
          }
          EntryExtensionality(Merged(init, k), NewEntry(k));
        }
      }
    }
  }

  /** `Object.values(groupedEntries)`, in insertion order. */
  function Values(g: Groups): (vs: seq<YamlEntry>)
    requires g.Valid()
    ensures |vs| == |g.order|
    ensures forall i :: 0 <= i < |vs| ==> vs[i] == g.entries[g.order[i]]
  {
    seq(|g.order|, i requires 0 <= i < |g.order| => g.entries[g.order[i]])
  }

  // ---------------------------------------------------------------------
  // Operational reading: the second loop and the projection
  // ---------------------------------------------------------------------

  /** The entries of `values` the second loop pushes to list c, in order. */
  function Selected(values: seq<YamlEntry>, c: Category): (picked: seq<YamlEntry>)
    ensures forall e :: e in picked ==> e in values && Placement(e) == Some(c)
  {
    if values == [] then []
    else
      var e := values[|values| - 1];
      Selected(values[..|values| - 1], c) + (if Placement(e) == Some(c) then [e] else [])
  }

  /** xs is obtained from ys by deleting elements. */
  predicate IsSubsequence(xs: seq<YamlEntry>, ys: seq<YamlEntry>)
    decreases |ys|
  {
    if xs == [] then true
    else if ys == [] then false
    else if xs[|xs| - 1] == ys[|ys| - 1] then IsSubsequence(xs[..|xs| - 1], ys[..|ys| - 1])
    else IsSubsequence(xs, ys[..|ys| - 1])
  }

  /** Every list is a subsequence of the accumulators. */
  lemma {:induction false} SelectedIsSubsequence(values: seq<YamlEntry>, c: Category)
    ensures IsSubsequence(Selected(values, c), values)
  {
    if values != [] {
      var init, e := values[..|values| - 1], values[|values| - 1];
      SelectedIsSubsequence(init, c);
      var p := Selected(init, c);
      if Placement(e) == Some(c) {
        var q := p + [e];
        assert Selected(values, c) == q;
        assert q[..|q| - 1] == p;
      } else {
        assert Selected(values, c) == p;
        if p != [] {
          assert p[|p| - 1] in p;
          assert p[|p| - 1] != e;
        }
      }
    }
  }

  /** Every accumulator placed in list c is in it. */
  lemma {:induction false} SelectedIsComplete(values: seq<YamlEntry>, c: Category)
    ensures forall e :: e in values && Placement(e) == Some(c) ==> e in Selected(values, c)
  {
    if values != [] {
      var init, e := values[..|values| - 1], values[|values| - 1];
      SelectedIsComplete(init, c);
      assert values == init + [e];
      if Placement(e) == Some(c) {
        assert Selected(values, c) == Selected(init, c) + [e];
      } else {
        assert Selected(values, c) == Selected(init, c);
      }
    }
  }

  /** The output document: four lists under `light`, `fan`, `switch`, `climate`. */
  datatype KnxObject = KnxObject(
    light: seq<DeviceRecord>,
    fan: seq<DeviceRecord>,
    switch: seq<DeviceRecord>,
    climate: seq<ClimateRecord>)

  /** `list.map(...)` with the light/fan/switch projection. */
  function Devices(es: seq<YamlEntry>): (rs: seq<DeviceRecord>)
    ensures |rs| == |es|
    ensures forall i :: 0 <= i < |es| ==> rs[i] == ToDevice(es[i])
  {
    seq(|es|, i requires 0 <= i < |es| => ToDevice(es[i]))
  }

  /** `list.map(...)` with the climate projection. */
  function Climates(es: seq<YamlEntry>): (rs: seq<ClimateRecord>)
    ensures |rs| == |es|
    ensures forall i :: 0 <= i < |es| ==> rs[i] == ToClimate(es[i])
  {
    seq(|es|, i requires 0 <= i < |es| => ToClimate(es[i]))
  }

  /** `convertToYaml` up to the serialisation. */
  function Convert(rows: seq<Row>): KnxObject
  {
    var values := Values(Accumulate(rows));
    KnxObject(
      Devices(Selected(values, Light)),
      Devices(Selected(values, Fan)),
      Devices(Selected(values, Switch)),
      Climates(Selected(values, Climate)))
  }

  // ---------------------------------------------------------------------
  // The two readings agree
  // ---------------------------------------------------------------------

  /** Selecting from merged records is selecting keys, then merging. */
  lemma {:induction false} SelectedMergedAll(effects: seq<Effect>, keys: seq<string>, c: Category)
    ensures Selected(MergedAll(effects, keys), c) == MergedAll(effects, KeysPlaced(effects, keys, c))
  {
    if keys != [] {
      var init, k := keys[..|keys| - 1], keys[|keys| - 1];
      SelectedMergedAll(effects, init, c);
      var m := MergedOf(effects, k);
      var records := MergedAll(effects, keys);
      assert records == MergedAll(effects, init) + [m];
      assert records[..|records| - 1] == MergedAll(effects, init);
      assert records[|records| - 1] == m;
      var p := KeysPlaced(effects, init, c);
      if Placement(m) == Some(c) {
        assert KeysPlaced(effects, keys, c) == p + [k];
        assert (p + [k])[..|p|] == p;
        assert MergedAll(effects, p + [k]) == MergedAll(effects, p) + [m];
        assert Selected(records, c) == Selected(MergedAll(effects, init), c) + [m];
      } else {
        assert KeysPlaced(effects, keys, c) == p;
        assert Selected(records, c) == Selected(MergedAll(effects, init), c);
      }
    }
  }

  /** The accumulators in insertion order are the merged records of the first-seen keys. */
  lemma ValuesAreMerged(rows: seq<Row>)
    ensures Values(Accumulate(rows)) == MergedAll(Effects(rows), FirstOccurrences(Keys(rows)))
  {
    AccumulateOrder(rows);
    AccumulateIsMerged(rows);
    MergedAllAt(Effects(rows), FirstOccurrences(Keys(rows)));
  }

  /**
   * The output without maps or loops: list c holds the projected merged
   * record of every key placed in c, in first-seen order of the keys.
   */
  lemma ConvertIsReference(rows: seq<Row>)
    ensures Convert(rows).light == Devices(MergedAll(Effects(rows), PlacedKeys(rows, Light)))
    ensures Convert(rows).fan == Devices(MergedAll(Effects(rows), PlacedKeys(rows, Fan)))
    ensures Convert(rows).switch == Devices(MergedAll(Effects(rows), PlacedKeys(rows, Switch)))
    ensures Convert(rows).climate == Climates(MergedAll(Effects(rows), PlacedKeys(rows, Climate)))
  {
    ValuesAreMerged(rows);
    var keys := FirstOccurrences(Keys(rows));
    SelectedMergedAll(Effects(rows), keys, Light);
    SelectedMergedAll(Effects(rows), keys, Fan);
    SelectedMergedAll(Effects(rows), keys, Switch);
    SelectedMergedAll(Effects(rows), keys, Climate);
  }

  // ---------------------------------------------------------------------
  // Properties of the output
  // ---------------------------------------------------------------------

  /** The names of device records, in order. */
  function DeviceNames(rs: seq<DeviceRecord>): (names: seq<string>)
  {
    seq(|rs|, i requires 0 <= i < |rs| => rs[i].name)
  }

  /** The names of climate records, in order. */
  function ClimateNames(rs: seq<ClimateRecord>): (names: seq<string>)
  {
    seq(|rs|, i requires 0 <= i < |rs| => rs[i].name)
  }

  /** The names in list c of doc, in order. */
  function NamesIn(doc: KnxObject, c: Category): (names: seq<string>)
  {
    match c
    case Light => DeviceNames(doc.light)
    case Fan => DeviceNames(doc.fan)
    case Switch => DeviceNames(doc.switch)
    case Climate => ClimateNames(doc.climate)
  }

  /** Projecting the records of keys gives records named by those keys. */
  lemma ProjectedNames(effects: seq<Effect>, keys: seq<string>)
    ensures DeviceNames(Devices(MergedAll(effects, keys))) == keys
    ensures ClimateNames(Climates(MergedAll(effects, keys))) == keys
  {
    MergedAllAt(effects, keys);
  }

  /** The names in list c are exactly the keys placed in c. */
  lemma OutputNames(rows: seq<Row>, c: Category)
    ensures NamesIn(Convert(rows), c) == PlacedKeys(rows, c)
  {
    ConvertIsReference(rows);
    ProjectedNames(Effects(rows), PlacedKeys(rows, c));
  }

  /**
   * A name is in list c exactly when a row that is not ignored has it as base
   * key and its merged record passes the completeness filter and falls in c;
   * names in a list are distinct and in first-seen order; no name is in two
   * lists.
   */
  lemma OutputLists(rows: seq<Row>, c: Category)
    ensures forall k :: k in NamesIn(Convert(rows), c) <==>
      k in Keys(rows) && HasChannel(Merged(rows, k)) && CategoryOf(Merged(rows, k)) == Some(c)
    ensures forall i, j :: 0 <= i < j < |NamesIn(Convert(rows), c)| ==>
      IndexOf(Keys(rows), NamesIn(Convert(rows), c)[i]) < IndexOf(Keys(rows), NamesIn(Convert(rows), c)[j])
    ensures Distinct(NamesIn(Convert(rows), c))
    ensures forall c', k :: c' != c && k in NamesIn(Convert(rows), c) ==> k !in NamesIn(Convert(rows), c')
  {
    OutputNames(rows, c);
    PlacedKeysSpec(rows, c);
    forall c', k | c' != c && k in NamesIn(Convert(rows), c) ensures k !in NamesIn(Convert(rows), c') {
      OutputNames(rows, c');
      PlacedKeysSpec(rows, c');
    }
  }

  /** A name matching the light words and `steckdose` is in no list at all. */
  lemma LightSocketIsDropped(rows: seq<Row>, key: string, c: Category)
    requires NamesLight(key) && ContainsIgnoringCase(key, "steckdose")
    ensures key !in NamesIn(Convert(rows), c)
  {
    OutputLists(rows, c);
  }

  /** Each projected record is the projection of the record of its own name. */
  lemma ProjectedRecords(effects: seq<Effect>, keys: seq<string>)
    ensures forall r :: r in Devices(MergedAll(effects, keys)) ==> r == ToDevice(MergedOf(effects, r.name))
    ensures forall r :: r in Climates(MergedAll(effects, keys)) ==> r == ToClimate(MergedOf(effects, r.name))
  {
    MergedAllAt(effects, keys);
    var records := MergedAll(effects, keys);
    forall r | r in Devices(records) ensures r == ToDevice(MergedOf(effects, r.name)) {
      var i :| 0 <= i < |records| && Devices(records)[i] == r;
    }
    forall r | r in Climates(records) ensures r == ToClimate(MergedOf(effects, r.name)) {
      var i :| 0 <= i < |records| && Climates(records)[i] == r;
    }
  }

  /** A record in a list is the projection of its key's merged record. */
  lemma OutputRecords(rows: seq<Row>)
    ensures forall r :: r in Convert(rows).light ==> r == ToDevice(Merged(rows, r.name))
    ensures forall r :: r in Convert(rows).fan ==> r == ToDevice(Merged(rows, r.name))
    ensures forall r :: r in Convert(rows).switch ==> r == ToDevice(Merged(rows, r.name))
    ensures forall r :: r in Convert(rows).climate ==> r == ToClimate(Merged(rows, r.name))
  {
    ConvertIsReference(rows);
    var effects := Effects(rows);
    ProjectedRecords(effects, PlacedKeys(rows, Light));
    ProjectedRecords(effects, PlacedKeys(rows, Fan));
    ProjectedRecords(effects, PlacedKeys(rows, Switch));
    ProjectedRecords(effects, PlacedKeys(rows, Climate));
  }

  /** A climate record built from keys placed in the climate list has a temperature address in main group 5. */
  lemma PlacedClimateRecords(effects: seq<Effect>, keys: seq<string>)
    ensures forall r :: r in Climates(MergedAll(effects, KeysPlaced(effects, keys, Climate))) ==>
      r.temperatureAddress.Some? && StartsWith(r.temperatureAddress.value, "5/")
  {
    var placed := KeysPlaced(effects, keys, Climate);
    var list := Climates(MergedAll(effects, placed));
    ProjectedRecords(effects, placed);
    ProjectedNames(effects, placed);
    forall r | r in list ensures r.temperatureAddress.Some? && StartsWith(r.temperatureAddress.value, "5/") {
      var i :| 0 <= i < |list| && list[i] == r;
      assert ClimateNames(list)[i] == r.name;
      var e := MergedOf(effects, r.name);
      assert Placement(e) == Some(Climate);
      assert CategoryOf(e) == Some(Climate);
      assert r == ToClimate(e);
    }
  }

  /** No effect of a row assigns `operation_mode_address`, so no record built from them has one. */
  lemma NoOperationModeRecords(rows: seq<Row>, keys: seq<string>)
    ensures forall r :: r in Climates(MergedAll(Effects(rows), keys)) ==> r.operationModeAddress == None
  {
    var list := Climates(MergedAll(Effects(rows), keys));
    ProjectedRecords(Effects(rows), keys);
    forall r | r in list ensures r.operationModeAddress == None {
      NoOperationModeAddress(rows, r.name);
    }
  }

  /**
   * Every climate record has a temperature address in main group 5 and no
   * `operation_mode_address`.
   */
  lemma ClimateRecords(rows: seq<Row>)
    ensures forall r :: r in Convert(rows).climate ==>
      r.temperatureAddress.Some? && StartsWith(r.temperatureAddress.value, "5/") && r.operationModeAddress == None
  {
    ConvertIsReference(rows);
    PlacedClimateRecords(Effects(rows), FirstOccurrences(Keys(rows)));
    NoOperationModeRecords(rows, PlacedKeys(rows, Climate));
  }

  /** An ignored row leaves no trace in the output, wherever it stands. */
  lemma IgnoredRowLeavesNoTrace(before: seq<Row>, row: Row, after: seq<Row>)
    requires IsIgnored(row.description)
    ensures Convert(before + [row] + after) == Convert(before + after)
  {
    IgnoredRowIsInert(before, row, after);
  }

  // ---------------------------------------------------------------------
  // The loops
  // ---------------------------------------------------------------------

  /** The first loop (`entries.forEach`), updating the key order and the map in place. */
  method Group(entries: seq<Row>) returns (groups: Groups)
    ensures groups == Accumulate(entries)
  {
    var order: seq<string> := [];
    var grouped: map<string, YamlEntry> := map[];
    for i := 0 to |entries|
      invariant Groups(order, grouped) == Accumulate(entries[..i])
    {
      assert entries[..i + 1][..i] == entries[..i];
      var entry := entries[i];
      var d := entry.description;
      if IsIgnored(d) {
        continue;
      }
      var key := BaseKey(d);
      if key !in grouped {
        grouped := grouped[key := NewEntry(key)];
        order := order + [key];
      }
      match FieldFor(entry) {
        case None =>
        case Some(f) => grouped := grouped[key := grouped[key].Set(f, entry.address)];
      }
    }
    assert entries[..|entries|] == entries;
    groups := Groups(order, grouped);
  }

  /** The second loop (`Object.values(...).forEach`), pushing to the four lists. */
  method Categorize(values: seq<YamlEntry>)
    returns (lights: seq<YamlEntry>, fans: seq<YamlEntry>, switches: seq<YamlEntry>, climate: seq<YamlEntry>)
    ensures lights == Selected(values, Light)
    ensures fans == Selected(values, Fan)
    ensures switches == Selected(values, Switch)
    ensures climate == Selected(values, Climate)
  {
    lights, fans, switches, climate := [], [], [], [];
    for i := 0 to |values|
      invariant lights == Selected(values[..i], Light)
      invariant fans == Selected(values[..i], Fan)
      invariant switches == Selected(values[..i], Switch)
      invariant climate == Selected(values[..i], Climate)
    {
      assert values[..i + 1][..i] == values[..i];
      var entry := values[i];
      if !IsTruthy(entry.address) && !IsTruthy(entry.temperatureAddress) {
        continue;
      }
      if ContainsIgnoringCase(entry.name, "Beleuchtung") || ContainsIgnoringCase(entry.name, "licht") {
        if !ContainsIgnoringCase(entry.name, "steckdose") {
          lights := lights + [entry];
        }
      } else if ContainsIgnoringCase(entry.name, "luefter") {
        fans := fans + [entry];
      } else if ContainsIgnoringCase(entry.name, "steckdose") {
        switches := switches + [entry];
      } else if entry.temperatureAddress.Some? && StartsWith(entry.temperatureAddress.value, "5/") {
        climate := climate + [entry];
      }
    }
    assert values[..|values|] == values;
  }

  /** `convertToYaml` up to `yaml.stringify`: both loops, then the projections. */
  method ConvertToYaml(entries: seq<Row>) returns (doc: KnxObject)
    ensures doc == Convert(entries)
  {
    var groups := Group(entries);
    var lights, fans, switches, climate := Categorize(Values(groups));
    doc := KnxObject(Devices(lights), Devices(fans), Devices(switches), Climates(climate));
  }
}
