/** Where the ladder files an increment, row by row. */
module LadderTheorems {
  import opened Basics
  import opened Vocabulary
  import opened Counters
  import opened FoldLadder

  // ---- Which rows are close to a key ----

  /** The keys differ in their error class at most. */
  predicate Near(a: CounterKey, b: CounterKey) {
    a == b.(errorClass := a.errorClass)
  }

  /** The keys differ in their error class and endpoint at most. */
  predicate Akin(a: CounterKey, b: CounterKey) {
    a == b.(errorClass := a.errorClass, endpoint := a.endpoint)
  }

  predicate SomeNear(rows: seq<Entry>, key: CounterKey) {
    exists i :: 0 <= i < |rows| && Near(rows[i].key, key)
  }

  predicate SomeAkin(rows: seq<Entry>, key: CounterKey) {
    exists i :: 0 <= i < |rows| && Akin(rows[i].key, key)
  }

  /** Row `i` is the first one near to the key. */
  predicate FirstNear(rows: seq<Entry>, key: CounterKey, i: nat) {
    i < |rows| && Near(rows[i].key, key) && forall j :: 0 <= j < i ==> !Near(rows[j].key, key)
  }

  predicate FirstAkin(rows: seq<Entry>, key: CounterKey, i: nat) {
    i < |rows| && Akin(rows[i].key, key) && forall j :: 0 <= j < i ==> !Akin(rows[j].key, key)
  }

  /** The key with its error class given up, and its endpoint too. */
  function Vague(key: CounterKey): CounterKey {
    key.(errorClass := Some(Unknown))
  }

  function Vaguer(key: CounterKey): CounterKey {
    key.(errorClass := Some(Unknown), endpoint := InferenceOther)
  }

  // ---- What filing does ----

  /** The increment is added to the row of `target`, in place, or as a new last row. */
  predicate AddedTo(rows: seq<Entry>, after: seq<Entry>, target: CounterKey, inc: CounterRow) {
    if HasKey(rows, target) then
      exists i :: 0 <= i < |rows| && rows[i].key == target && after == rows[i := Entry(target, Merged(rows[i].row, inc))]
    else after == rows + [Entry(target, Merged(EMPTY_ROW, inc))]
  }

  /** Row `p` becomes the last row, under `target`, with the increment added. */
  predicate FoldedWith(rows: seq<Entry>, after: seq<Entry>, p: nat, target: CounterKey, inc: CounterRow)
    requires p < |rows|
  {
    after == rows[..p] + rows[p + 1..] + [Entry(target, Merged(Merged(EMPTY_ROW, rows[p].row), inc))]
  }

  /** Where an increment goes: to its own row, while there is one or fewer than 256 are
      kept; else to the row, made of the first near one if it is missing, that has given
      up its error class; else likewise to the one that has given up its endpoint too;
      else to the first row. */
  predicate Filed(rows: seq<Entry>, inc: Entry, after: seq<Entry>) {
    var key := inc.key;
    if HasKey(rows, key) || |rows| < 256 then AddedTo(rows, after, key, inc.row)
    else if SomeNear(rows, key) then
      if HasKey(rows, Vague(key)) then AddedTo(rows, after, Vague(key), inc.row)
      else exists p :: 0 <= p < |rows| && FirstNear(rows, key, p) && FoldedWith(rows, after, p, Vague(key), inc.row)
    else if SomeAkin(rows, key) then
      if HasKey(rows, Vaguer(key)) then AddedTo(rows, after, Vaguer(key), inc.row)
      else exists p :: 0 <= p < |rows| && FirstAkin(rows, key, p) && FoldedWith(rows, after, p, Vaguer(key), inc.row)
    else AddedTo(rows, after, rows[0].key, inc.row)
  }

  lemma {:induction false} NearIff(a: CounterKey, b: CounterKey)
    ensures Near(a, b) <==> SameButErrorClass(a, b)
    ensures Akin(a, b) <==> SameButErrorClassAndEndpoint(a, b)
    ensures FoldedKey(b, false) == Vague(b) && FoldedKey(b, true) == Vaguer(b)
    ensures Near(a, b) ==> FoldedKey(a, false) == Vague(b)
    ensures Akin(a, b) ==> FoldedKey(a, true) == Vaguer(b)
  {
  }

  lemma {:induction false} AddToIs(rows: seq<Entry>, key: CounterKey, inc: CounterRow)
    ensures AddedTo(rows, AddTo(rows, key, inc), key, inc)
  {
    var i := Find(rows, key);
    if i < |rows| {
      assert rows[i].key == key;
    }
  }

  lemma {:induction false} RefoldIs(rows: seq<Entry>, p: nat, endpoint: bool, inc: CounterRow)
    requires ValidWindow(rows) && p < |rows| && !HasKey(rows, FoldedKey(rows[p].key, endpoint))
    ensures var target := FoldedKey(rows[p].key, endpoint);
            FoldedWith(rows, AddTo(Refolded(rows, p, endpoint), target, inc), p, target, inc)
  {
    RefoldedValid(rows, p, endpoint);
    var rows' := Refolded(rows, p, endpoint);
    var n := |rows'| - 1;
    assert rows'[n := Entry(rows'[n].key, Merged(rows'[n].row, inc))]
           == rows[..p] + rows[p + 1..] + [Entry(rows'[n].key, Merged(rows'[n].row, inc))];
  }

  lemma {:induction false} HasVague(rows: seq<Entry>, key: CounterKey)
    ensures HasKey(rows, Vague(key)) ==> SomeNear(rows, key)
    ensures HasKey(rows, Vaguer(key)) ==> SomeAkin(rows, key)
    ensures HasKey(rows, key) ==> SomeNear(rows, key)
  {
    if HasKey(rows, Vague(key)) {
      var e :| e in rows && e.key == Vague(key);
      var i :| 0 <= i < |rows| && rows[i] == e;
      assert Near(rows[i].key, key);
    }
    if HasKey(rows, Vaguer(key)) {
      var e :| e in rows && e.key == Vaguer(key);
      var i :| 0 <= i < |rows| && rows[i] == e;
      assert Akin(rows[i].key, key);
    }
    if HasKey(rows, key) {
      var e :| e in rows && e.key == key;
      var i :| 0 <= i < |rows| && rows[i] == e;
      assert Near(rows[i].key, key);
    }
  }

  /** What the ladder's choice means. */
  predicate ChoiceMeans(rows: seq<Entry>, key: CounterKey, r: Rung) {
    match r
    case Direct => HasKey(rows, key) || |rows| < 256
    case Existing(target) =>
      && !(HasKey(rows, key) || |rows| < 256) && HasKey(rows, target)
      && ((SomeNear(rows, key) && target == Vague(key))
          || (!SomeNear(rows, key) && SomeAkin(rows, key) && target == Vaguer(key)))
    case Refold(p, endpoint) =>
      && !(HasKey(rows, key) || |rows| < 256)
      && (if endpoint then !SomeNear(rows, key) && FirstAkin(rows, key, p) && !HasKey(rows, Vaguer(key))
          else FirstNear(rows, key, p) && !HasKey(rows, Vague(key)))
    case LastResort => !(HasKey(rows, key) || |rows| < 256) && !SomeNear(rows, key) && !SomeAkin(rows, key)
  }

  lemma {:induction false} ChooseMeans(rows: seq<Entry>, key: CounterKey)
    ensures ChoiceMeans(rows, key, Choose(rows, key))
  {
    forall a ensures Near(a, key) <==> SameButErrorClass(a, key)
             ensures Akin(a, key) <==> SameButErrorClassAndEndpoint(a, key)
    {
      NearIff(a, key);
    }
    NearIff(key, key);
    HasVague(rows, key);
  }

  /** One merge files its increment exactly so. */
  lemma {:induction false} FiledExactly(rows: seq<Entry>, inc: Entry)
    requires ValidWindow(rows)
    ensures Filed(rows, inc, MergeOne(rows, inc))
  {
    var r := Choose(rows, inc.key);
    ChooseMeans(rows, inc.key);
    match r {
      case Refold(p, endpoint) =>
        NearIff(rows[p].key, inc.key);
        RefoldIs(rows, p, endpoint, inc.row);
        if endpoint {
          assert Akin(rows[p].key, inc.key);
        } else {
          assert Near(rows[p].key, inc.key);
        }
      case _ => AddToIs(rows, Target(rows, inc.key, r), inc.row);
    }
  }
}
