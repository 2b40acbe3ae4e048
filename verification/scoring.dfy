/**
 * Scoring a results file. The rows of one sentence stub are grouped by
 * condition letter; each city condition's label distribution (the first six
 * label/probability pairs of its row) is compared with that of the neutral
 * condition `F`: labels the reference does not list are folded into `OTHER`,
 * and the score is the sum of absolute probability differences. The scores
 * are then averaged per condition over all stubs.
 */
module Scoring {
  import opened Outcomes
  import opened Dicts
  import opened Text
  import Query

  /** One line of the results file, split at tabs. */
  type Row = seq<string>

  /** A dict from a label (or a condition letter) to a number. */
  type Table = seq<(string, real)>

  /** The rows of one stub, by condition letter. */
  type Conditions = seq<(string, Row)>

  /** The conditions of every stub, by stub index. */
  type Groups = seq<(string, Conditions)>

  /** The condition every other condition is compared with. */
  const REFERENCE: string := "F"

  /** The condition letters whose scores are averaged, in output order. */
  const CONDITIONS: seq<string> := ["A", "B", "C", "D", "E"]

  /** The country printed for each condition letter. */
  const NAMES: seq<(string, string)> := [("A", "Japan"), ("B", "UK"), ("C", "US"), ("D", "Mexico"), ("E", "India")]

  // ------------------------------------------------------------ reading rows

  /** `row[4:16]`: the twelve cells after the four item fields, fewer when the row is short. */
  function Window(row: Row): Row {
    if |row| <= 4 then [] else row[4..if |row| < 16 then |row| else 16]
  }

  /** Python's slice clamps at the end of the row instead of failing. */
  lemma WindowCells(row: Row)
    ensures |Window(row)| == if |row| <= 4 then 0 else if |row| < 16 then |row| - 4 else 12
    ensures forall i :: 0 <= i < |Window(row)| ==> Window(row)[i] == row[4 + i]
  {
  }

  /** `[w[i] for i in range(0, n, 2)]`: the labels. */
  function EvenCells(w: Row, n: nat): seq<string>
    requires n <= |w|
  {
    seq((n + 1) / 2, i requires 0 <= i < (n + 1) / 2 => w[2 * i])
  }

  /** `[float(w[i]) for i in range(1, n, 2)]`: the probabilities, `float` being `parse`. */
  function OddValues(w: Row, n: nat, parse: string -> real): seq<real>
    requires n <= |w|
  {
    seq(n / 2, i requires 0 <= i < n / 2 => parse(w[2 * i + 1]))
  }

  /**
   * What is read of a row when `n` cells of its window are used: at most six
   * labels, from columns 4, 6, ..., and at most six probabilities, from
   * columns 5, 7, ...; nothing past column 15.
   */
  lemma CellsRead(row: Row, n: nat, parse: string -> real)
    requires n <= |Window(row)|
    ensures |EvenCells(Window(row), n)| <= 6 && |OddValues(Window(row), n, parse)| <= 6
    ensures forall i :: 0 <= i < |EvenCells(Window(row), n)| ==>
      4 + 2 * i < 16 && EvenCells(Window(row), n)[i] == row[4 + 2 * i]
    ensures forall i :: 0 <= i < |OddValues(Window(row), n, parse)| ==>
      5 + 2 * i < 16 && OddValues(Window(row), n, parse)[i] == parse(row[5 + 2 * i])
  {
    WindowCells(row);
  }

  /** `zip(ks, vs)`: pairs up to the end of the shorter list. */
  function Zip(ks: seq<string>, vs: seq<real>): Table {
    var m := if |ks| < |vs| then |ks| else |vs|;
    seq(m, i requires 0 <= i < m => (ks[i], vs[i]))
  }

  /** `dict(pairs)`: each pair assigned in turn. */
  function FromEntries(ps: Table): Table {
    if ps == [] then [] else Put(FromEntries(ps[..|ps| - 1]), ps[|ps| - 1].0, ps[|ps| - 1].1)
  }

  /** The value of the last pair with key `k`. */
  function LastValue(ps: Table, k: string): Option<real> {
    if ps == [] then None
    else if ps[|ps| - 1].0 == k then Some(ps[|ps| - 1].1)
    else LastValue(ps[..|ps| - 1], k)
  }

  /** `dict(pairs)` has one entry per distinct key, holding the key's last value. */
  lemma {:induction false} FromEntriesMeaning(ps: Table)
    ensures Unique(FromEntries(ps))
    ensures forall k :: Get(FromEntries(ps), k) == LastValue(ps, k)
  {
    if ps != [] {
      var front := ps[..|ps| - 1];
      FromEntriesMeaning(front);
      var (k, v) := ps[|ps| - 1];
      UniquePut(FromEntries(front), k, v);
      forall k' ensures Get(FromEntries(ps), k') == LastValue(ps, k') {
        GetPut(FromEntries(front), k, v, k');
      }
    }
  }

  /** Only keys that occur among the pairs have a last value. */
  lemma {:induction false} LastValueKey(ps: Table, k: string)
    ensures LastValue(ps, k).Some? ==> k in Keys(ps)
  {
    if ps != [] && ps[|ps| - 1].0 != k {
      LastValueKey(ps[..|ps| - 1], k);
      if LastValue(ps, k).Some? {
        var j :| 0 <= j < |ps| - 1 && Keys(ps[..|ps| - 1])[j] == k;
        assert Keys(ps)[j] == k;
      }
    }
  }

  /** `d[k]` as a number, 0 when `k` is absent. */
  function ValueIn(t: Table, k: string): real {
    match Get(t, k)
    case Some(v) => v
    case None => 0.0
  }

  function ValueOf(t: Table): string -> real {
    k => ValueIn(t, k)
  }

  // ---------------------------------------------------- folding into OTHER

  /** The state of the folding loop: the condition's dict and the labels queued for removal. */
  datatype Fold = Fold(cur: Table, rm: seq<string>)

  /**
   * One turn of the folding loop for label `s`: a label the reference does
   * not list is queued for removal and its current value added to `OTHER`,
   * which must be present.
   */
  function FoldStep(f: Fold, s: string, labels: seq<string>, other: string): Result<Fold> {
    if s in labels then Ok(f)
    else match Get(f.cur, other)
      case None => Err(MissingKey)
      case Some(o) =>
        match Get(f.cur, s)
        case None => Err(MissingKey)
        case Some(v) => Ok(Fold(Put(f.cur, other, o + v), f.rm + [s]))
  }

  /** The folding loop over the labels `ks`, in order. */
  function FoldAll(cdict: Table, ks: seq<string>, labels: seq<string>, other: string): Result<Fold> {
    if ks == [] then Ok(Fold(cdict, []))
    else match FoldAll(cdict, ks[..|ks| - 1], labels, other)
      case Err(e) => Err(e)
      case Ok(f) => FoldStep(f, ks[|ks| - 1], labels, other)
  }

  /** The removal loop: `cdict.pop(s)` for each queued label. */
  function PopAll(cur: Table, rm: seq<string>): Table {
    if rm == [] then cur else PopAll(Remove(cur, rm[0]), rm[1..])
  }

  /** The condition's dict after folding the labels outside `labels` into `OTHER` and removing them. */
  function Folded(cdict: Table, labels: seq<string>): Result<Table> {
    match FoldAll(cdict, Keys(cdict), labels, Query.OTHER)
    case Err(e) => Err(e)
    case Ok(f) => Ok(PopAll(f.cur, f.rm))
  }

  /** An entry's value when its label is outside `labels`, else 0. */
  function OffLabel(labels: seq<string>): ((string, real)) -> real {
    (e: (string, real)) => if e.0 in labels then 0.0 else e.1
  }

  /** The probability carried by the labels outside `labels`. */
  function RemovedMass(cdict: Table, labels: seq<string>): real {
    SumOver(cdict, OffLabel(labels))
  }

  /** The labels of `es` outside `labels`, in order. */
  function OffLabels(es: Table, labels: seq<string>): seq<string> {
    if es == [] then []
    else OffLabels(es[..|es| - 1], labels) + (if es[|es| - 1].0 in labels then [] else [es[|es| - 1].0])
  }

  function Bumped(o: Option<real>, m: real): Option<real> {
    match o
    case Some(v) => Some(v + m)
    case None => None
  }

  lemma {:induction false} OffLabelsFacts(es: Table, labels: seq<string>)
    ensures forall j :: 0 <= j < |OffLabels(es, labels)| ==> OffLabels(es, labels)[j] !in labels
    ensures forall k :: k in OffLabels(es, labels) <==> k in Keys(es) && k !in labels
    ensures Unique(es) ==>
      forall i, j :: 0 <= i < j < |OffLabels(es, labels)| ==> OffLabels(es, labels)[i] != OffLabels(es, labels)[j]
  {
    if es != [] {
      var front := es[..|es| - 1];
      OffLabelsFacts(front, labels);
      assert Keys(es) == Keys(front) + [es[|es| - 1].0];
      if Unique(es) {
        assert Unique(front);
        assert es[|es| - 1].0 !in Keys(front) by {
          forall j | 0 <= j < |front| ensures Keys(front)[j] != es[|es| - 1].0 {
            assert Keys(front)[j] == es[j].0;
          }
        }
      }
    }
  }

  /** The loop invariant of the folding loop after the first `i` labels of `cdict`. */
  ghost predicate Folding(cdict: Table, labels: seq<string>, i: nat, f: Fold, other: string)
    requires i <= |cdict|
  {
    FoldShape(cdict, labels, i, f, other) && (other in labels ==> FoldTally(cdict, labels, i, f, other))
  }

  /** Only `OTHER` has changed, and the labels so far outside `labels` are queued. */
  ghost predicate FoldShape(cdict: Table, labels: seq<string>, i: nat, f: Fold, other: string)
    requires i <= |cdict|
  {
    OnlyOtherChanged(f.cur, cdict, other) && f.rm == OffLabels(cdict[..i], labels)
  }

  /** `cur` has the keys of `cdict` and differs from it at most under `other`. */
  ghost predicate OnlyOtherChanged(cur: Table, cdict: Table, other: string) {
    && Unique(cur) && Keys(cur) == Keys(cdict)
    && (forall k :: k != other ==> Get(cur, k) == Get(cdict, k))
  }

  /** `OTHER` holds what it had plus the queued probability, and no probability is lost. */
  ghost predicate FoldTally(cdict: Table, labels: seq<string>, i: nat, f: Fold, other: string)
    requires i <= |cdict|
  {
    && Get(f.cur, other) == Bumped(Get(cdict, other), SumOver(cdict[..i], OffLabel(labels)))
    && SumOver(f.cur, Value) - SumOver(f.rm, ValueOf(f.cur)) == SumOver(cdict, Value)
  }

  /** Adding `w` to the value of a present key adds `w` to the sum. */
  lemma PutAddsMass(t: Table, k: string, o: real, w: real, next: Table)
    requires Get(t, k) == Some(o) && next == Put(t, k, o + w)
    ensures SumOver(next, Value) == SumOver(t, Value) + w
  {
    var p := IndexOf(t, k);
    SumOverUpdate(t, p, (k, o + w), Value);
  }

  /** A folding turn for a label outside `labels`, with `OTHER` present: the label is queued and its
      probability is added to `OTHER`. */
  lemma FoldMoves(cdict: Table, labels: seq<string>, i: nat, f: Fold, other: string)
    requires Unique(cdict) && i < |cdict| && FoldShape(cdict, labels, i, f, other)
    requires cdict[i].0 !in labels && other in Keys(cdict)
    ensures FoldStep(f, cdict[i].0, labels, other).Ok?
    ensures FoldShape(cdict, labels, i + 1, FoldStep(f, cdict[i].0, labels, other).value, other)
    ensures Get(FoldStep(f, cdict[i].0, labels, other).value.cur, other)
         == Some(Get(f.cur, other).value + Get(f.cur, cdict[i].0).value)
  {
    var s := cdict[i].0;
    assert s in Keys(f.cur) by {
      assert s == Keys(cdict)[i];
    }
    assert Get(f.cur, other).Some?;
    var o, v := Get(f.cur, other).value, Get(f.cur, s).value;
    var cur := Put(f.cur, other, o + v);
    assert FoldStep(f, s, labels, other) == Ok(Fold(cur, f.rm + [s]));
    PutOtherKeeps(f.cur, cdict, other, o + v);
    GetPut(f.cur, other, o + v, other);
    assert OffLabels(cdict[..i + 1], labels) == f.rm + [s] by {
      assert cdict[..i + 1][..i] == cdict[..i];
    }
  }

  /** Storing a new value under `OTHER` keeps the keys and every other key's value. */
  lemma PutOtherKeeps(cur: Table, cdict: Table, other: string, w: real)
    requires OnlyOtherChanged(cur, cdict, other) && other in Keys(cur)
    ensures OnlyOtherChanged(Put(cur, other, w), cdict, other)
  {
    UniquePut(cur, other, w);
    forall k | k != other ensures Get(Put(cur, other, w), k) == Get(cdict, k) {
      GetPut(cur, other, w, k);
    }
  }

  /** What a moving turn needs to know about the label it moves. */
  lemma FoldMoveFacts(cdict: Table, labels: seq<string>, i: nat, f: Fold, other: string)
    requires Unique(cdict) && i < |cdict| && FoldShape(cdict, labels, i, f, other)
    requires cdict[i].0 !in labels && other in labels
    ensures Get(f.cur, cdict[i].0) == Some(cdict[i].1)
    ensures forall j :: 0 <= j < |f.rm| ==> f.rm[j] != other
  {
    assert cdict[i].0 != other;
    GetAt(cdict, i);
    OffLabelsFacts(cdict[..i], labels);
  }

  /** ... and when the reference lists `OTHER`, the tally follows the turn. */
  lemma FoldMovesTally(cdict: Table, labels: seq<string>, i: nat, f: Fold, other: string)
    requires i < |cdict| && FoldTally(cdict, labels, i, f, other)
    requires cdict[i].0 !in labels && other in labels && Get(f.cur, other).Some?
    requires Get(f.cur, cdict[i].0) == Some(cdict[i].1)
    requires forall j :: 0 <= j < |f.rm| ==> f.rm[j] != other
    ensures FoldStep(f, cdict[i].0, labels, other).Ok?
    ensures FoldTally(cdict, labels, i + 1, FoldStep(f, cdict[i].0, labels, other).value, other)
  {
    var s := cdict[i].0;
    var o := Get(f.cur, other).value;
    var cur := Put(f.cur, other, o + cdict[i].1);
    assert FoldStep(f, s, labels, other) == Ok(Fold(cur, f.rm + [s]));
    FoldBumps(cdict, labels, i, f.cur, other);
    FoldBalance(f.cur, f.rm, s, cdict[i].1, SumOver(cdict, Value), cur, other);
  }

  lemma FoldBumps(cdict: Table, labels: seq<string>, i: nat, cur: Table, other: string)
    requires i < |cdict| && cdict[i].0 !in labels && Get(cur, other).Some?
    requires Get(cur, other) == Bumped(Get(cdict, other), SumOver(cdict[..i], OffLabel(labels)))
    ensures Get(Put(cur, other, Get(cur, other).value + cdict[i].1), other) ==
      Bumped(Get(cdict, other), SumOver(cdict[..i + 1], OffLabel(labels)))
  {
    var o := Get(cur, other).value;
    GetPut(cur, other, o + cdict[i].1, other);
    assert cdict[..i + 1] == cdict[..i] + [cdict[i]];
    SumOverSnoc(cdict[..i], cdict[i], OffLabel(labels));
  }

  lemma FoldBalance(cur: Table, rm: seq<string>, s: string, v: real, total: real, next: Table, other: string)
    requires Get(cur, other).Some? && Get(cur, s) == Some(v) && s != other
    requires next == Put(cur, other, Get(cur, other).value + v)
    requires forall j :: 0 <= j < |rm| ==> rm[j] != other
    requires SumOver(cur, Value) - SumOver(rm, ValueOf(cur)) == total
    ensures SumOver(next, Value) - SumOver(rm + [s], ValueOf(next)) == total
  {
    var o := Get(cur, other).value;
    PutAddsMass(cur, other, o, v, next);
    QueuedAfterPut(cur, rm, s, v, other, o + v, next);
  }

  /** Updating a key outside the queue leaves the queued labels' values alone. */
  lemma QueuedAfterPut(cur: Table, rm: seq<string>, s: string, v: real, k: string, w: real, next: Table)
    requires Get(cur, s) == Some(v) && s != k && next == Put(cur, k, w)
    requires forall j :: 0 <= j < |rm| ==> rm[j] != k
    ensures SumOver(rm + [s], ValueOf(next)) == SumOver(rm, ValueOf(cur)) + v
  {
    forall j | 0 <= j < |rm| ensures ValueOf(next)(rm[j]) == ValueOf(cur)(rm[j]) {
      GetPut(cur, k, w, rm[j]);
    }
    SumOverAgree(rm, ValueOf(next), ValueOf(cur));
    GetPut(cur, k, w, s);
    SumOverSnoc(rm, s, ValueOf(next));
  }

  /** A folding turn for a label the reference lists changes nothing. */
  lemma FoldKeeps(cdict: Table, labels: seq<string>, i: nat, f: Fold, other: string)
    requires i < |cdict| && Folding(cdict, labels, i, f, other) && cdict[i].0 in labels
    ensures FoldStep(f, cdict[i].0, labels, other) == Ok(f)
    ensures Folding(cdict, labels, i + 1, f, other)
  {
    assert cdict[..i + 1] == cdict[..i] + [cdict[i]];
    assert cdict[..i + 1][..i] == cdict[..i];
    SumOverSnoc(cdict[..i], cdict[i], OffLabel(labels));
  }

  /** The folding loop fails exactly when some label so far is outside `labels` and `OTHER` is missing. */
  lemma {:induction false} FoldAllKeeps(cdict: Table, labels: seq<string>, i: nat, other: string)
    requires Unique(cdict) && i <= |cdict|
    ensures FoldAll(cdict, Keys(cdict)[..i], labels, other).Err? <==>
      other !in Keys(cdict) && exists j :: 0 <= j < i && cdict[j].0 !in labels
    ensures FoldAll(cdict, Keys(cdict)[..i], labels, other).Ok? ==>
      Folding(cdict, labels, i, FoldAll(cdict, Keys(cdict)[..i], labels, other).value, other)
  {
    var ks := Keys(cdict);
    if i == 0 {
      assert ks[..0] == [] && cdict[..0] == [];
    } else {
      FoldAllKeeps(cdict, labels, i - 1, other);
      assert ks[..i][..i - 1] == ks[..i - 1];
      assert ks[..i][i - 1] == cdict[i - 1].0;
      var prev := FoldAll(cdict, ks[..i - 1], labels, other);
      if prev.Ok? {
        if cdict[i - 1].0 in labels {
          FoldKeeps(cdict, labels, i - 1, prev.value, other);
        } else if other in Keys(cdict) {
          FoldMoves(cdict, labels, i - 1, prev.value, other);
          if other in labels {
            FoldMoveFacts(cdict, labels, i - 1, prev.value, other);
            FoldMovesTally(cdict, labels, i - 1, prev.value, other);
          }
        } else {
          assert Get(prev.value.cur, other) == None;
        }
      }
    }
  }

  lemma {:induction false} PopAllGet(cur: Table, rm: seq<string>)
    requires Unique(cur)
    ensures Unique(PopAll(cur, rm))
    ensures forall k :: Get(PopAll(cur, rm), k) == if k in rm then None else Get(cur, k)
  {
    if rm != [] {
      var next := Remove(cur, rm[0]);
      forall k ensures Get(next, k) == if k == rm[0] then None else Get(cur, k) {
        GetRemove(cur, rm[0], k);
      }
      GetRemove(cur, rm[0], rm[0]);
      PopAllGet(next, rm[1..]);
      assert forall k :: k in rm <==> k == rm[0] || k in rm[1..];
    }
  }

  /** Removing distinct labels takes their values out of the sum. */
  lemma {:induction false} PopAllMass(cur: Table, rm: seq<string>)
    requires Unique(cur) && forall i, j :: 0 <= i < j < |rm| ==> rm[i] != rm[j]
    ensures SumOver(PopAll(cur, rm), Value) == SumOver(cur, Value) - SumOver(rm, ValueOf(cur))
  {
    if rm != [] {
      var s := rm[0];
      var next := Remove(cur, s);
      GetRemove(cur, s, s);
      var p := IndexOf(cur, s);
      if p < |cur| {
        SumOverRemoveAt(cur, p, Value);
      }
      PopAllMass(next, rm[1..]);
      forall j | 0 <= j < |rm[1..]| ensures ValueOf(next)(rm[1..][j]) == ValueOf(cur)(rm[1..][j]) {
        GetRemove(cur, s, rm[1..][j]);
      }
      SumOverAgree(rm[1..], ValueOf(next), ValueOf(cur));
    }
  }

  /** What folding leaves under label `k`, stated without the loops. */
  function FoldedGet(cdict: Table, labels: seq<string>, k: string): Option<real> {
    if k !in labels then None
    else if k == Query.OTHER then Bumped(Get(cdict, k), RemovedMass(cdict, labels))
    else Get(cdict, k)
  }

  /**
   * Folding fails exactly when a label outside the reference's list meets a
   * dict without `OTHER`. Otherwise the labels outside the list are gone,
   * `OTHER` (when the list has it) gains their probability, and every other
   * listed label keeps its value.
   */
  /** The folding loop can only raise KeyError. */
  lemma {:induction false} FoldAllFailsMissing(cdict: Table, ks: seq<string>, labels: seq<string>, other: string)
    ensures FoldAll(cdict, ks, labels, other).Err? ==> FoldAll(cdict, ks, labels, other) == Err(MissingKey)
  {
    if ks != [] {
      FoldAllFailsMissing(cdict, ks[..|ks| - 1], labels, other);
    }
  }

  lemma FoldedMeaning(cdict: Table, labels: seq<string>)
    requires Unique(cdict)
    ensures Folded(cdict, labels).Err? <==>
      Query.OTHER !in Keys(cdict) && exists j :: 0 <= j < |cdict| && cdict[j].0 !in labels
    ensures Folded(cdict, labels).Err? ==> Folded(cdict, labels) == Err(MissingKey)
    ensures Folded(cdict, labels).Ok? ==> Unique(Folded(cdict, labels).value)
    ensures Folded(cdict, labels).Ok? ==> forall k :: Get(Folded(cdict, labels).value, k) == FoldedGet(cdict, labels, k)
  {
    var ks := Keys(cdict);
    assert ks[..|cdict|] == ks;
    assert cdict[..|cdict|] == cdict;
    FoldAllKeeps(cdict, labels, |cdict|, Query.OTHER);
    FoldAllFailsMissing(cdict, ks, labels, Query.OTHER);
    if FoldAll(cdict, ks, labels, Query.OTHER).Ok? {
      var f := FoldAll(cdict, ks, labels, Query.OTHER).value;
      OffLabelsFacts(cdict, labels);
      PopAllGet(f.cur, f.rm);
    }
  }

  /** When the reference lists `OTHER`, folding moves probability and never loses it. */
  lemma FoldConservesMass(cdict: Table, labels: seq<string>)
    requires Unique(cdict) && Query.OTHER in labels && Folded(cdict, labels).Ok?
    ensures SumOver(Folded(cdict, labels).value, Value) == SumOver(cdict, Value)
  {
    var ks := Keys(cdict);
    assert ks[..|cdict|] == ks;
    assert cdict[..|cdict|] == cdict;
    FoldAllKeeps(cdict, labels, |cdict|, Query.OTHER);
    var f := FoldAll(cdict, ks, labels, Query.OTHER).value;
    OffLabelsFacts(cdict, labels);
    PopAllMass(f.cur, f.rm);
  }

  /** A condition whose labels the reference all lists is left as it is by folding. */
  lemma FoldedListed(cdict: Table, labels: seq<string>)
    requires forall j :: 0 <= j < |cdict| ==> cdict[j].0 in labels
    ensures Folded(cdict, labels) == Ok(cdict)
  {
    FoldAllListed(cdict, Keys(cdict), labels, Query.OTHER);
  }

  lemma {:induction false} FoldAllListed(cdict: Table, ks: seq<string>, labels: seq<string>, other: string)
    requires forall j :: 0 <= j < |ks| ==> ks[j] in labels
    ensures FoldAll(cdict, ks, labels, other) == Ok(Fold(cdict, []))
  {
    if ks != [] {
      FoldAllListed(cdict, ks[..|ks| - 1], labels, other);
    }
  }

  /** Once the folding loop has raised, the rest of the loop is never run. */
  lemma {:induction false} FoldAllErr(cdict: Table, ks: seq<string>, i: nat, labels: seq<string>, other: string)
    requires i <= |ks| && FoldAll(cdict, ks[..i], labels, other).Err?
    ensures FoldAll(cdict, ks, labels, other) == FoldAll(cdict, ks[..i], labels, other)
    decreases |ks| - i
  {
    if i < |ks| {
      assert ks[..i + 1][..i] == ks[..i];
      FoldAllErr(cdict, ks, i + 1, labels, other);
    } else {
      assert ks[..i] == ks;
    }
  }

  // ---------------------------------------------------------------- distance

  function Abs(x: real): real {
    if x < 0.0 then -x else x
  }

  /**
   * The differences loop: `abs(reference_dict[s] - cdict[s])` added up over
   * the folded condition; a label the reference dict lacks raises.
   */
  function Distance(refDict: Table, es: Table): Result<real> {
    if es == [] then Ok(0.0)
    else match Distance(refDict, es[..|es| - 1])
      case Err(e) => Err(e)
      case Ok(d) =>
        match Get(refDict, es[|es| - 1].0)
        case None => Err(MissingKey)
        case Some(r) => Ok(d + Abs(r - es[|es| - 1].1))
  }

  /** The term of one condition entry: its distance from the reference's value. */
  function Gap(refDict: Table): ((string, real)) -> real {
    (e: (string, real)) => Abs(ValueIn(refDict, e.0) - e.1)
  }

  /**
   * The distance exists exactly when the reference dict has every label of
   * the condition, and is then the sum of the absolute differences, so never
   * negative.
   */
  lemma {:induction false} DistanceMeaning(refDict: Table, es: Table)
    ensures Distance(refDict, es).Ok? <==> forall j :: 0 <= j < |es| ==> es[j].0 in Keys(refDict)
    ensures Distance(refDict, es).Ok? ==> Distance(refDict, es).value == SumOver(es, Gap(refDict))
    ensures Distance(refDict, es).Ok? ==> Distance(refDict, es).value >= 0.0
  {
    if es != [] {
      var front, e := es[..|es| - 1], es[|es| - 1];
      DistanceMeaning(refDict, front);
      assert es == front + [e];
      SumOverSnoc(front, e, Gap(refDict));
    }
  }

  /** Once the differences loop has raised, the rest of the loop is never run. */
  lemma {:induction false} DistanceErr(refDict: Table, es: Table, i: nat)
    requires i <= |es| && Distance(refDict, es[..i]).Err?
    ensures Distance(refDict, es) == Distance(refDict, es[..i])
    decreases |es| - i
  {
    if i < |es| {
      assert es[..i + 1][..i] == es[..i];
      DistanceErr(refDict, es, i + 1);
    } else {
      assert es[..i] == es;
    }
  }

  lemma {:induction false} DistanceSelfUpTo(es: Table, i: nat)
    requires Unique(es) && i <= |es|
    ensures Distance(es, es[..i]) == Ok(0.0)
  {
    if i > 0 {
      DistanceSelfUpTo(es, i - 1);
      assert es[..i][..i - 1] == es[..i - 1];
      GetAt(es, i - 1);
    }
  }

  /** A dict is at distance 0 from itself. */
  lemma DistanceSelf(es: Table)
    requires Unique(es)
    ensures Distance(es, es) == Ok(0.0)
  {
    DistanceSelfUpTo(es, |es|);
    assert es[..|es|] == es;
  }

  /**
   * A reference label the condition does not have adds nothing: dropping it
   * from the reference dict leaves the distance as it was.
   */
  lemma {:induction false} AbsentReferenceLabelIgnored(refDict: Table, es: Table, absent: string)
    requires Unique(refDict)
    requires forall j :: 0 <= j < |es| ==> es[j].0 != absent
    ensures Distance(Remove(refDict, absent), es) == Distance(refDict, es)
  {
    if es != [] {
      AbsentReferenceLabelIgnored(refDict, es[..|es| - 1], absent);
      GetRemove(refDict, absent, es[|es| - 1].0);
    }
  }

  // ------------------------------------------------------- condition scores

  /** The reference row's labels, `keys`. */
  function RefLabels(ref: Row): seq<string> {
    EvenCells(Window(ref), |Window(ref)|)
  }

  /** The reference row's dict, `reference_dict`. */
  function RefDict(ref: Row, parse: string -> real): Table {
    FromEntries(Zip(RefLabels(ref), OddValues(Window(ref), |Window(ref)|, parse)))
  }

  /** A condition row's dict, `cdict`, read at the reference's positions. */
  function ConditionDict(ref: Row, row: Row, parse: string -> real): Table
    requires |Window(ref)| <= |Window(row)|
  {
    var n := |Window(ref)|;
    FromEntries(Zip(EvenCells(Window(row), n), OddValues(Window(row), n, parse)))
  }

  /**
   * The score of one condition row against the reference row: an
   * IndexError when the condition's cells end before the reference's, else
   * the distance of the folded condition dict from the reference dict.
   */
  function ConditionScore(ref: Row, row: Row, parse: string -> real): Result<real> {
    if |Window(row)| < |Window(ref)| then Err(IndexOutOfRange)
    else match Folded(ConditionDict(ref, row, parse), RefLabels(ref))
      case Err(e) => Err(e)
      case Ok(f) => Distance(RefDict(ref, parse), f)
  }

  /** A condition row with the reference's own cells scores 0. */
  lemma IdenticalWindowScoresZero(ref: Row, row: Row, parse: string -> real)
    requires Window(row) == Window(ref)
    ensures ConditionScore(ref, row, parse) == Ok(0.0)
  {
    var labels := RefLabels(ref);
    var ps := Zip(labels, OddValues(Window(ref), |Window(ref)|, parse));
    var cdict := ConditionDict(ref, row, parse);
    assert cdict == RefDict(ref, parse) == FromEntries(ps);
    FromEntriesMeaning(ps);
    forall j | 0 <= j < |cdict| ensures cdict[j].0 in labels {
      var k := cdict[j].0;
      assert k == Keys(cdict)[j];
      LastValueKey(ps, k);
      var m :| 0 <= m < |ps| && Keys(ps)[m] == k;
      assert ps[m].0 == labels[m];
    }
    FoldedListed(cdict, labels);
    DistanceSelf(cdict);
  }

  /** The scores of one stub: `score_condition`, one score per condition other than the reference. */
  function Scores(conds: Conditions, parse: string -> real): Result<Table> {
    match Get(conds, REFERENCE)
    case None => Err(MissingKey)
    case Some(ref) => ScoresOver(conds, ref, parse)
  }

  /** The loop over the conditions, in order; the reference itself is skipped. */
  function ScoresOver(conds: Conditions, ref: Row, parse: string -> real): Result<Table> {
    if conds == [] then Ok([])
    else match ScoresOver(conds[..|conds| - 1], ref, parse)
      case Err(e) => Err(e)
      case Ok(t) => ScoreStep(t, conds[|conds| - 1], ref, parse)
  }

  /** One turn of the conditions loop: the reference is skipped, any other condition's score recorded. */
  function ScoreStep(t: Table, cond: (string, Row), ref: Row, parse: string -> real): Result<Table> {
    if cond.0 == REFERENCE then Ok(t)
    else match ConditionScore(ref, cond.1, parse)
      case Err(e) => Err(e)
      case Ok(d) => Ok(Put(t, cond.0, d))
  }

  /** The score recorded for condition `k`, stated without the loop. */
  function ScoreAt(conds: Conditions, ref: Row, k: string, parse: string -> real): Option<real> {
    if k == REFERENCE then None
    else match Get(conds, k)
      case None => None
      case Some(row) =>
        match ConditionScore(ref, row, parse)
        case Ok(d) => Some(d)
        case Err(_) => None
  }

  /** `t` records, for every condition, the score `ScoreAt` gives it. */
  ghost predicate ScoresMatch(t: Table, conds: Conditions, ref: Row, parse: string -> real) {
    forall k :: Get(t, k) == ScoreAt(conds, ref, k, parse)
  }

  lemma ScoresStep(conds: Conditions, ref: Row, parse: string -> real, t: Table, next: Table)
    requires Unique(conds) && conds != []
    requires Unique(t) && ScoresMatch(t, conds[..|conds| - 1], ref, parse)
    requires ScoreStep(t, conds[|conds| - 1], ref, parse) == Ok(next)
    ensures Unique(next) && ScoresMatch(next, conds, ref, parse)
  {
    var (key, row) := conds[|conds| - 1];
    if key != REFERENCE {
      assert ConditionScore(ref, row, parse).Ok?;
      UniquePut(t, key, ConditionScore(ref, row, parse).value);
    }
    forall k ensures Get(next, k) == ScoreAt(conds, ref, k, parse) {
      GetLast(conds, k);
      if key != REFERENCE {
        GetPut(t, key, ConditionScore(ref, row, parse).value, k);
      }
    }
  }

  /** Every condition other than the reference has a score. */
  predicate AllScored(conds: Conditions, ref: Row, parse: string -> real) {
    forall j :: 0 <= j < |conds| && conds[j].0 != REFERENCE ==> ConditionScore(ref, conds[j].1, parse).Ok?
  }

  lemma {:induction false} ScoresOverMeaning(conds: Conditions, ref: Row, parse: string -> real)
    requires Unique(conds)
    ensures ScoresOver(conds, ref, parse).Ok? <==> AllScored(conds, ref, parse)
    ensures ScoresOver(conds, ref, parse).Ok? ==> Unique(ScoresOver(conds, ref, parse).value)
    ensures ScoresOver(conds, ref, parse).Ok? ==> ScoresMatch(ScoresOver(conds, ref, parse).value, conds, ref, parse)
  {
    if conds != [] {
      var n := |conds| - 1;
      var front := conds[..n];
      assert Unique(front);
      ScoresOverMeaning(front, ref, parse);
      AllScoredLast(conds, ref, parse);
      var prev := ScoresOver(front, ref, parse);
      if prev.Ok? {
        var r := ScoreStep(prev.value, conds[n], ref, parse);
        assert ScoresOver(conds, ref, parse) == r;
        if r.Ok? {
          ScoresStep(conds, ref, parse, prev.value, r.value);
        }
      }
    }
  }

  /** Every condition scores when those before the last do and the last is the reference or scores. */
  lemma AllScoredLast(conds: Conditions, ref: Row, parse: string -> real)
    requires conds != []
    ensures AllScored(conds, ref, parse) <==>
      AllScored(conds[..|conds| - 1], ref, parse) &&
      (conds[|conds| - 1].0 == REFERENCE || ConditionScore(ref, conds[|conds| - 1].1, parse).Ok?)
  {
    var n := |conds| - 1;
    assert forall j :: 0 <= j < n ==> conds[..n][j] == conds[j];
  }


  /**
   * `score_condition` raises a KeyError without a reference row and otherwise
   * fails exactly when some other condition's score fails; it records one
   * score per condition other than the reference, and nothing else.
   */
  lemma ScoresMeaning(conds: Conditions, parse: string -> real)
    requires Unique(conds)
    ensures REFERENCE !in Keys(conds) ==> Scores(conds, parse) == Err(MissingKey)
    ensures REFERENCE in Keys(conds) ==>
      (Scores(conds, parse).Ok? <==> AllScored(conds, Get(conds, REFERENCE).value, parse))
    ensures Scores(conds, parse).Ok? ==> Unique(Scores(conds, parse).value)
    ensures Scores(conds, parse).Ok? ==>
      ScoresMatch(Scores(conds, parse).value, conds, Get(conds, REFERENCE).value, parse)
  {
    if REFERENCE in Keys(conds) {
      ScoresOverMeaning(conds, Get(conds, REFERENCE).value, parse);
    }
  }

  /** Once the conditions loop has raised, the rest of the loop is never run. */
  lemma {:induction false} ScoresOverErr(conds: Conditions, ref: Row, parse: string -> real, i: nat)
    requires i <= |conds| && ScoresOver(conds[..i], ref, parse).Err?
    ensures ScoresOver(conds, ref, parse) == ScoresOver(conds[..i], ref, parse)
    decreases |conds| - i
  {
    if i < |conds| {
      assert conds[..i + 1][..i] == conds[..i];
      ScoresOverErr(conds, ref, parse, i + 1);
    } else {
      assert conds[..i] == conds;
    }
  }

  // ---------------------------------------------------------------- averages

  /** The starting totals: 0 for every condition letter. */
  const ZEROS: Table := [("A", 0.0), ("B", 0.0), ("C", 0.0), ("D", 0.0), ("E", 0.0)]

  /** `diff_dict[k] += d[k]` for every key of one stub's scores; a key the totals lack raises. */
  function AddScores(acc: Table, d: Table): Result<Table> {
    if d == [] then Ok(acc)
    else match AddScores(acc, d[..|d| - 1])
      case Err(e) => Err(e)
      case Ok(t) => AddEntry(t, d[|d| - 1])
  }

  /** `diff_dict[k] += v` for one entry `(k, v)`. */
  function AddEntry(t: Table, e: (string, real)): Result<Table> {
    match Get(t, e.0)
    case None => Err(MissingKey)
    case Some(x) => Ok(Put(t, e.0, x + e.1))
  }

  /** Every stub's scores added in turn to the totals `acc`. */
  function AddAll(acc: Table, ds: seq<Table>): Result<Table> {
    if ds == [] then Ok(acc)
    else match AddAll(acc, ds[..|ds| - 1])
      case Err(e) => Err(e)
      case Ok(t) => AddScores(t, ds[|ds| - 1])
  }

  /** The totals over the scores of all stubs, starting from 0 for every letter. */
  function Totals(ds: seq<Table>): Result<Table> {
    AddAll(ZEROS, ds)
  }

  /** The printed lines: each condition's country and its total divided by `count`. */
  function Report(t: Table, count: nat): Result<seq<(string, real)>>
    requires count > 0
  {
    if t == [] then Ok([])
    else match Report(t[..|t| - 1], count)
      case Err(e) => Err(e)
      case Ok(lines) =>
        match Get(NAMES, t[|t| - 1].0)
        case None => Err(MissingKey)
        case Some(name) => Ok(lines + [(name, t[|t| - 1].1 / count as real)])
  }

  /**
   * `score_all_by_condition`: every condition's total over the stubs divided
   * by the number of stubs; with no stubs the division raises.
   */
  function Averages(ds: seq<Table>): Result<seq<(string, real)>> {
    match Totals(ds)
    case Err(e) => Err(e)
    case Ok(t) => if |ds| == 0 then Err(DivisionByZero) else Report(t, |ds|)
  }

  /** A stub's score for condition `k`, 0 when the stub has none. */
  function ScoreIn(k: string): Table -> real {
    d => ValueIn(d, k)
  }

  /** The sum over the stubs of their scores for condition `k`. */
  function PooledScore(ds: seq<Table>, k: string): real {
    SumOver(ds, ScoreIn(k))
  }

  /** Every key of every stub's scores is one of `ks`. */
  predicate KeyedBy(ds: seq<Table>, ks: seq<string>) {
    forall i :: 0 <= i < |ds| ==> KeysAmong(ds[i], ks)
  }

  /** Every key of `d` is one of `ks`. */
  predicate KeysAmong(d: Table, ks: seq<string>) {
    forall j :: 0 <= j < |d| ==> d[j].0 in ks
  }

  /** Every key of every stub's scores is one of the averaged condition letters. */
  predicate Lettered(ds: seq<Table>) {
    KeyedBy(ds, CONDITIONS)
  }

  /** `t` is `acc` with every value of `d` added to its key's total. */
  ghost predicate AddedUp(t: Table, acc: Table, d: Table) {
    Unique(t) && Keys(t) == Keys(acc) && forall k :: Get(t, k) == Bumped(Get(acc, k), ValueIn(d, k))
  }

  /** `t` holds, for every key of `acc`, its value there plus the sum of the stubs' scores for it. */
  ghost predicate Summed(t: Table, acc: Table, ds: seq<Table>) {
    Unique(t) && forall k :: k in Keys(acc) ==> Get(t, k) == Some(ValueIn(acc, k) + PooledScore(ds, k))
  }

  lemma AddedAt(acc: Table, t: Table, next: Table, k0: string, v0: real, k: string, before: real, after: real)
    requires Get(t, k) == Bumped(Get(acc, k), before)
    requires Get(t, k0) == Bumped(Get(acc, k0), 0.0) && Get(t, k0).Some?
    requires next == Put(t, k0, Get(t, k0).value + v0)
    requires after == if k == k0 then v0 else before
    ensures Get(next, k) == Bumped(Get(acc, k), after)
  {
    GetPut(t, k0, Get(t, k0).value + v0, k);
  }

  lemma AddScoresStep(acc: Table, d: Table, t: Table, next: Table)
    requires Unique(d) && d != [] && AddedUp(t, acc, d[..|d| - 1])
    requires d[|d| - 1].0 in Keys(t)
    requires next == Put(t, d[|d| - 1].0, Get(t, d[|d| - 1].0).value + d[|d| - 1].1)
    ensures AddedUp(next, acc, d)
  {
    var n := |d| - 1;
    var k0 := d[n].0;
    var front := d[..n];
    UniquePut(t, k0, Get(t, k0).value + d[n].1);
    assert k0 !in Keys(front) by {
      forall m | 0 <= m < n ensures Keys(front)[m] != k0 {
        assert front[m] == d[m];
      }
    }
    assert Get(t, k0) == Bumped(Get(acc, k0), 0.0);
    forall k ensures Get(next, k) == Bumped(Get(acc, k), ValueIn(d, k)) {
      GetLast(d, k);
      AddedAt(acc, t, next, k0, d[n].1, k, ValueIn(front, k), ValueIn(d, k));
    }
  }

  lemma {:induction false} AddScoresKeys(acc: Table, d: Table)
    ensures AddScores(acc, d).Ok? <==> KeysAmong(d, Keys(acc))
    ensures AddScores(acc, d).Ok? ==> Keys(AddScores(acc, d).value) == Keys(acc)
  {
    if d != [] {
      var n := |d| - 1;
      var front := d[..n];
      AddScoresKeys(acc, front);
      var prev := AddScores(acc, front);
      if AddScores(acc, d).Ok? {
        forall j | 0 <= j < |d| ensures d[j].0 in Keys(acc) {
          if j < n {
            assert front[j] == d[j];
          }
        }
      } else if prev.Err? {
        var j :| 0 <= j < n && front[j].0 !in Keys(acc);
        assert front[j] == d[j];
      }
    }
  }


  lemma {:induction false} AddScoresSums(acc: Table, d: Table)
    requires Unique(acc) && Unique(d) && AddScores(acc, d).Ok?
    ensures AddedUp(AddScores(acc, d).value, acc, d)
  {
    if d == [] {
      forall k ensures Get(acc, k) == Bumped(Get(acc, k), ValueIn(d, k)) {
        match Get(acc, k)
        case Some(v) => assert ValueIn(d, k) == 0.0;
        case None =>
      }
    } else {
      var n := |d| - 1;
      assert Unique(d[..n]);
      AddScoresSums(acc, d[..n]);
      AddScoresStep(acc, d, AddScores(acc, d[..n]).value, AddScores(acc, d).value);
    }
  }

  /**
   * Adding one stub's scores succeeds exactly when the totals have each of
   * its keys, and then adds each score to its key's total.
   */
  lemma AddScoresMeaning(acc: Table, d: Table)
    requires Unique(acc) && Unique(d)
    ensures AddScores(acc, d).Ok? <==> forall j :: 0 <= j < |d| ==> d[j].0 in Keys(acc)
    ensures AddScores(acc, d).Ok? ==> AddedUp(AddScores(acc, d).value, acc, d)
  {
    AddScoresKeys(acc, d);
    if AddScores(acc, d).Ok? {
      AddScoresSums(acc, d);
    }
  }

  lemma ZerosFacts()
    ensures Unique(ZEROS) && Keys(ZEROS) == CONDITIONS
    ensures forall k :: ValueIn(ZEROS, k) == 0.0
  {
    assert Keys(ZEROS) == CONDITIONS;
    forall k ensures ValueIn(ZEROS, k) == 0.0 {
      var i := IndexOf(ZEROS, k);
      assert i < 5 ==> ZEROS[i].1 == 0.0;
    }
  }

  lemma AddAllStep(ds: seq<Table>, acc: Table, t: Table, next: Table)
    requires ds != [] && Summed(t, acc, ds[..|ds| - 1]) && AddedUp(next, t, ds[|ds| - 1])
    ensures Summed(next, acc, ds)
  {
    var n := |ds| - 1;
    assert ds == ds[..n] + [ds[n]];
    forall k | k in Keys(acc) ensures Get(next, k) == Some(ValueIn(acc, k) + PooledScore(ds, k)) {
      SumOverSnoc(ds[..n], ds[n], ScoreIn(k));
    }
  }

  lemma {:induction false} AddAllKeys(acc: Table, ds: seq<Table>)
    ensures AddAll(acc, ds).Ok? <==> KeyedBy(ds, Keys(acc))
    ensures AddAll(acc, ds).Ok? ==> Keys(AddAll(acc, ds).value) == Keys(acc)
  {
    if ds != [] {
      var n := |ds| - 1;
      var front := ds[..n];
      AddAllKeys(acc, front);
      assert KeyedBy(ds, Keys(acc)) <==> KeyedBy(front, Keys(acc)) && KeysAmong(ds[n], Keys(acc)) by {
        assert forall i :: 0 <= i < n ==> front[i] == ds[i];
      }
      var prev := AddAll(acc, front);
      if prev.Ok? {
        AddScoresKeys(prev.value, ds[n]);
      }
    }
  }


  lemma {:induction false} AddAllSums(acc: Table, ds: seq<Table>)
    requires Unique(acc) && forall i :: 0 <= i < |ds| ==> Unique(ds[i])
    requires AddAll(acc, ds).Ok?
    ensures Summed(AddAll(acc, ds).value, acc, ds)
  {
    if ds == [] {
      forall k | k in Keys(acc) ensures Get(acc, k) == Some(ValueIn(acc, k) + PooledScore(ds, k)) { }
    } else {
      var n := |ds| - 1;
      var t := AddAll(acc, ds[..n]).value;
      AddAllSums(acc, ds[..n]);
      AddScoresSums(t, ds[n]);
      AddAllStep(ds, acc, t, AddAll(acc, ds).value);
    }
  }

  /**
   * The totals exist exactly when every stub's keys are condition letters,
   * and then hold, per letter, the sum of the stubs' scores.
   */
  /** Adding one stub's scores can only raise KeyError. */
  lemma {:induction false} AddScoresFailsMissing(acc: Table, d: Table)
    ensures AddScores(acc, d).Err? ==> AddScores(acc, d) == Err(MissingKey)
  {
    if d != [] {
      AddScoresFailsMissing(acc, d[..|d| - 1]);
    }
  }

  /** Adding all stubs' scores can only raise KeyError. */
  lemma {:induction false} AddAllFailsMissing(acc: Table, ds: seq<Table>)
    ensures AddAll(acc, ds).Err? ==> AddAll(acc, ds) == Err(MissingKey)
  {
    if ds != [] {
      AddAllFailsMissing(acc, ds[..|ds| - 1]);
      match AddAll(acc, ds[..|ds| - 1])
      case Err(_) =>
      case Ok(t) => AddScoresFailsMissing(t, ds[|ds| - 1]);
    }
  }

  lemma TotalsMeaning(ds: seq<Table>)
    requires forall i :: 0 <= i < |ds| ==> Unique(ds[i])
    ensures Totals(ds).Ok? <==> Lettered(ds)
    ensures !Lettered(ds) ==> Totals(ds) == Err(MissingKey)
    ensures Totals(ds).Ok? ==> Keys(Totals(ds).value) == CONDITIONS && Unique(Totals(ds).value)
    ensures Totals(ds).Ok? ==> forall k :: k in CONDITIONS ==> Get(Totals(ds).value, k) == Some(PooledScore(ds, k))
  {
    ZerosFacts();
    AddAllKeys(ZEROS, ds);
    AddAllFailsMissing(ZEROS, ds);
    if Totals(ds).Ok? {
      AddAllSums(ZEROS, ds);
    }
  }

  /** The printed lines: one per total, its key's country and the total over `count`. */
  lemma {:induction false} ReportMeaning(t: Table, count: nat)
    requires count > 0 && forall j :: 0 <= j < |t| ==> t[j].0 in Keys(NAMES)
    ensures Report(t, count).Ok? && |Report(t, count).value| == |t|
    ensures forall j :: 0 <= j < |t| ==>
      Report(t, count).value[j] == (Get(NAMES, t[j].0).value, t[j].1 / count as real)
  {
    if t != [] {
      var n := |t| - 1;
      ReportMeaning(t[..n], count);
      forall j | 0 <= j < n ensures t[..n][j] == t[j] { }
    }
  }

  lemma NamesFacts()
    ensures Unique(NAMES) && Keys(NAMES) == CONDITIONS
  {
    assert Keys(NAMES) == CONDITIONS;
  }

  lemma AverageAt(t: Table, r: seq<(string, real)>, count: nat, c: nat, pooled: real)
    requires Unique(t) && Keys(t) == CONDITIONS && c < 5 && |r| == 5 && count > 0
    requires Unique(NAMES) && Keys(NAMES) == CONDITIONS
    requires r[c] == (Get(NAMES, t[c].0).value, t[c].1 / count as real)
    requires Get(t, CONDITIONS[c]) == Some(pooled)
    ensures r[c] == (NAMES[c].1, pooled / count as real)
  {
    assert t[c].0 == CONDITIONS[c] == NAMES[c].0;
    GetAt(t, c);
    GetAt(NAMES, c);
  }

  /**
   * `score_all_by_condition` prints the five countries in letter order, each
   * with the sum of the stubs' scores for its letter divided by the number of
   * stubs (a stub without that letter counting 0); it fails exactly when there
   * are no stubs or some stub has a key that is not a condition letter.
   */
  lemma AveragesMeaning(ds: seq<Table>)
    requires forall i :: 0 <= i < |ds| ==> Unique(ds[i])
    ensures Averages(ds).Ok? <==> |ds| > 0 && Lettered(ds)
    ensures ds == [] ==> Averages(ds) == Err(DivisionByZero)
    ensures |ds| > 0 && !Lettered(ds) ==> Averages(ds) == Err(MissingKey)
    ensures Averages(ds).Ok? ==> |Averages(ds).value| == 5
    ensures Averages(ds).Ok? ==> forall c :: 0 <= c < 5 ==>
      Averages(ds).value[c] == (NAMES[c].1, PooledScore(ds, CONDITIONS[c]) / |ds| as real)
  {
    TotalsMeaning(ds);
    if Totals(ds).Ok? && |ds| > 0 {
      var t := Totals(ds).value;
      NamesFacts();
      ReportMeaning(t, |ds|);
      var r := Report(t, |ds|).value;
      forall c | 0 <= c < 5 ensures r[c] == (NAMES[c].1, PooledScore(ds, CONDITIONS[c]) / |ds| as real) {
        AverageAt(t, r, |ds|, c, PooledScore(ds, CONDITIONS[c]));
      }
    }
  }

  // ---------------------------------------------------------------- grouping

  /** `[s.strip().split("\t") for s in lines]` */
  function ReadItems(lines: seq<string>): seq<Row> {
    seq(|lines|, i requires 0 <= i < |lines| => Split(Strip(lines[i]), '\t'))
  }

  /**
   * Filing one row under its stub index and condition letter: a later row
   * with the same pair replaces the earlier one; a row with fewer than two
   * fields raises an IndexError.
   */
  function GroupStep(g: Groups, item: Row): Result<Groups> {
    if |item| < 2 then Err(IndexOutOfRange) else Ok(File(g, item))
  }

  /** `conditions[item[0]][item[1]] = item`, creating the stub's dict when it is new. */
  function File(g: Groups, item: Row): Groups
    requires |item| >= 2
  {
    match Get(g, item[0])
    case Some(conds) => Put(g, item[0], Put(conds, item[1], item))
    case None => Put(g, item[0], [(item[1], item)])
  }

  /** The grouping loop of the program's main function. */
  function Grouped(items: seq<Row>): Result<Groups> {
    if items == [] then Ok([])
    else match Grouped(items[..|items| - 1])
      case Err(e) => Err(e)
      case Ok(g) => GroupStep(g, items[|items| - 1])
  }

  /** The last row filed under stub `s` and condition `c`. */
  function LastMatch(items: seq<Row>, s: string, c: string): Option<Row> {
    if items == [] then None
    else
      var item := items[|items| - 1];
      if |item| >= 2 && item[0] == s && item[1] == c then Some(item)
      else LastMatch(items[..|items| - 1], s, c)
  }

  /** The stub indices of the rows, each once, in the order they first appear. */
  function StubOrder(items: seq<Row>): seq<string> {
    if items == [] then []
    else
      var seen := StubOrder(items[..|items| - 1]);
      var item := items[|items| - 1];
      if |item| < 2 || item[0] in seen then seen else seen + [item[0]]
  }

  /** Some row with at least two fields has stub index `s`. */
  ghost predicate HasStub(items: seq<Row>, s: string) {
    exists j :: 0 <= j < |items| && |items[j]| >= 2 && items[j][0] == s
  }

  /** `conditions[s][c]`, or nothing. */
  function Lookup(g: Groups, s: string, c: string): Option<Row> {
    match Get(g, s)
    case None => None
    case Some(conds) => Get(conds, c)
  }

  /** `g` is a dict of dicts that files the last row of every stub and condition. */
  ghost predicate Filed(g: Groups, items: seq<Row>) {
    && Unique(g)
    && (forall s :: Get(g, s).Some? ==> Unique(Get(g, s).value))
    && (forall s, c :: Lookup(g, s, c) == LastMatch(items, s, c))
  }

  lemma GroupStepFiles(items: seq<Row>, g: Groups, next: Groups)
    requires items != [] && |items[|items| - 1]| >= 2 && Filed(g, items[..|items| - 1])
    requires GroupStep(g, items[|items| - 1]) == Ok(next)
    ensures Filed(next, items)
  {
    var item := items[|items| - 1];
    var inner := match Get(g, item[0]) case Some(conds) => Put(conds, item[1], item) case None => [(item[1], item)];
    assert next == Put(g, item[0], inner);
    UniquePut(g, item[0], inner);
    if Get(g, item[0]).Some? {
      UniquePut(Get(g, item[0]).value, item[1], item);
    }
    forall s ensures Get(next, s).Some? ==> Unique(Get(next, s).value) {
      GetPut(g, item[0], inner, s);
    }
    forall s, c ensures Lookup(next, s, c) == LastMatch(items, s, c) {
      GetPut(g, item[0], inner, s);
      if s == item[0] {
        match Get(g, item[0])
        case Some(conds) => GetPut(conds, item[1], item, c);
        case None =>
      }
    }
  }

  lemma {:induction false} GroupedFails(items: seq<Row>)
    ensures Grouped(items).Ok? <==> forall j :: 0 <= j < |items| ==> |items[j]| >= 2
  {
    if items != [] {
      var n := |items| - 1;
      var front := items[..n];
      GroupedFails(front);
      if Grouped(items).Ok? {
        assert |items[n]| >= 2 by {
          assert Grouped(front).Ok?;
          assert GroupStep(Grouped(front).value, items[n]).Ok?;
        }
        forall j | 0 <= j < |items| ensures |items[j]| >= 2 {
          if j < n {
            assert front[j] == items[j];
          }
        }
      } else if Grouped(front).Err? {
        var j :| 0 <= j < n && |front[j]| < 2;
        assert front[j] == items[j];
      }
    }
  }

  lemma {:induction false} GroupedFiles(items: seq<Row>)
    requires Grouped(items).Ok?
    ensures Filed(Grouped(items).value, items)
  {
    if items != [] {
      var n := |items| - 1;
      GroupedFiles(items[..n]);
      GroupStepFiles(items, Grouped(items[..n]).value, Grouped(items).value);
    }
  }

  /** Grouping can raise only IndexError. */
  lemma {:induction false} GroupedFailsIndex(items: seq<Row>)
    ensures Grouped(items).Err? ==> Grouped(items) == Err(IndexOutOfRange)
  {
    if items != [] {
      GroupedFailsIndex(items[..|items| - 1]);
    }
  }

  /** The outer dict's keys are the stub indices in the order they first appear. */
  lemma {:induction false} GroupedKeys(items: seq<Row>)
    requires Grouped(items).Ok?
    ensures Keys(Grouped(items).value) == StubOrder(items)
  {
    if items != [] {
      GroupedKeys(items[..|items| - 1]);
    }
  }

  /**
   * The stub order lists each stub index of the rows exactly once, and no
   * other string; it is empty only when no row has two fields.
   */
  lemma {:induction false} StubOrderMeaning(items: seq<Row>)
    ensures forall s :: s in StubOrder(items) <==> HasStub(items, s)
    ensures forall i, j :: 0 <= i < j < |StubOrder(items)| ==> StubOrder(items)[i] != StubOrder(items)[j]
    ensures StubOrder(items) == [] <==> forall j :: 0 <= j < |items| ==> |items[j]| < 2
  {
    if items != [] {
      var n := |items| - 1;
      var front := items[..n];
      StubOrderMeaning(front);
      forall s ensures HasStub(items, s) <==> HasStub(front, s) || (|items[n]| >= 2 && items[n][0] == s) {
        if HasStub(front, s) {
          var j :| 0 <= j < n && |front[j]| >= 2 && front[j][0] == s;
          assert items[j] == front[j];
        }
        if HasStub(items, s) && !(|items[n]| >= 2 && items[n][0] == s) {
          var j :| 0 <= j < |items| && |items[j]| >= 2 && items[j][0] == s;
          assert j < n && front[j] == items[j];
        }
      }
      assert (forall j :: 0 <= j < |items| ==> |items[j]| < 2) <==>
        (forall j :: 0 <= j < n ==> |front[j]| < 2) && |items[n]| < 2
      by {
        assert forall j :: 0 <= j < n ==> front[j] == items[j];
      }
    }
  }

  /**
   * Grouping fails exactly when some row has fewer than two fields; otherwise
   * it gives a dict of dicts, keyed by the rows' stub indices in the order
   * they first appear, holding for every stub and condition the last row
   * with that pair.
   */
  lemma GroupedMeaning(items: seq<Row>)
    ensures Grouped(items).Ok? <==> forall j :: 0 <= j < |items| ==> |items[j]| >= 2
    ensures Grouped(items).Ok? ==> Filed(Grouped(items).value, items)
    ensures Grouped(items).Ok? ==> Keys(Grouped(items).value) == StubOrder(items)
  {
    GroupedFails(items);
    if Grouped(items).Ok? {
      GroupedFiles(items);
      GroupedKeys(items);
    }
  }

  // ------------------------------------------------------------ whole file

  /** `[score_condition(conditions[c]) for c in conditions.keys()]` */
  function AllScores(g: Groups, parse: string -> real): Result<seq<Table>> {
    if g == [] then Ok([])
    else match AllScores(g[..|g| - 1], parse)
      case Err(e) => Err(e)
      case Ok(sd) =>
        match Scores(g[|g| - 1].1, parse)
        case Err(e) => Err(e)
        case Ok(d) => Ok(sd + [d])
  }

  /** The program on the lines of a results file: the five lines it prints. */
  function Scoring(lines: seq<string>, parse: string -> real): Result<seq<(string, real)>> {
    match Grouped(ReadItems(lines))
    case Err(e) => Err(e)
    case Ok(g) =>
      match AllScores(g, parse)
      case Err(e) => Err(e)
      case Ok(sd) => Averages(sd)
  }

  /** The average over the stubs of `g` of their scores for condition `k`. */
  function Average(g: Groups, parse: string -> real, k: string): real
    requires AllScores(g, parse).Ok? && |g| > 0
  {
    PooledScore(AllScores(g, parse).value, k) / |g| as real
  }

  /** One score dict per stub, in stub order, each the scores of that stub. */
  lemma {:induction false} AllScoresMeaning(g: Groups, parse: string -> real)
    ensures AllScores(g, parse).Ok? <==> forall i :: 0 <= i < |g| ==> Scores(g[i].1, parse).Ok?
    ensures AllScores(g, parse).Ok? ==> |AllScores(g, parse).value| == |g|
    ensures AllScores(g, parse).Ok? ==> forall i :: 0 <= i < |g| ==>
      Scores(g[i].1, parse) == Ok(AllScores(g, parse).value[i])
  {
    if g != [] {
      var n := |g| - 1;
      var front := g[..n];
      AllScoresMeaning(front, parse);
      if AllScores(g, parse).Ok? {
        var sd := AllScores(front, parse).value;
        var d := Scores(g[n].1, parse).value;
        var r := AllScores(g, parse).value;
        assert r == sd + [d];
        forall i | 0 <= i < |g| ensures Scores(g[i].1, parse) == Ok(r[i]) {
          if i < n {
            assert front[i] == g[i] && r[i] == sd[i];
          }
        }
      } else if AllScores(front, parse).Err? {
        var i :| 0 <= i < n && !Scores(front[i].1, parse).Ok?;
        assert front[i] == g[i];
      }
    }
  }

  /** The distance loop can raise only KeyError. */
  lemma {:induction false} DistanceFailsMissing(refDict: Table, es: Table)
    ensures Distance(refDict, es).Err? ==> Distance(refDict, es) == Err(MissingKey)
  {
    if es != [] {
      DistanceFailsMissing(refDict, es[..|es| - 1]);
    }
  }

  /** Scoring one condition row raises IndexError or KeyError, never a division by zero. */
  lemma ConditionScoreFails(ref: Row, row: Row, parse: string -> real)
    ensures ConditionScore(ref, row, parse).Err? ==>
      ConditionScore(ref, row, parse).failure in {IndexOutOfRange, MissingKey}
  {
    if |Window(row)| >= |Window(ref)| {
      var cdict := ConditionDict(ref, row, parse);
      FromEntriesMeaning(Zip(EvenCells(Window(row), |Window(ref)|), OddValues(Window(row), |Window(ref)|, parse)));
      FoldedMeaning(cdict, RefLabels(ref));
      if Folded(cdict, RefLabels(ref)).Ok? {
        DistanceFailsMissing(RefDict(ref, parse), Folded(cdict, RefLabels(ref)).value);
      }
    }
  }

  /** The conditions loop raises IndexError or KeyError, never a division by zero. */
  lemma {:induction false} ScoresOverFails(conds: Conditions, ref: Row, parse: string -> real)
    ensures ScoresOver(conds, ref, parse).Err? ==>
      ScoresOver(conds, ref, parse).failure in {IndexOutOfRange, MissingKey}
  {
    if conds != [] {
      ScoresOverFails(conds[..|conds| - 1], ref, parse);
      ConditionScoreFails(ref, conds[|conds| - 1].1, parse);
    }
  }

  /** Scoring all stubs raises IndexError or KeyError, never a division by zero. */
  lemma {:induction false} AllScoresFails(g: Groups, parse: string -> real)
    ensures AllScores(g, parse).Err? ==> AllScores(g, parse).failure in {IndexOutOfRange, MissingKey}
  {
    if g != [] {
      AllScoresFails(g[..|g| - 1], parse);
      if Get(g[|g| - 1].1, REFERENCE).Some? {
        ScoresOverFails(g[|g| - 1].1, Get(g[|g| - 1].1, REFERENCE).value, parse);
      }
    }
  }

  /**
   * The program divides by the number of distinct stub indices in the file,
   * so it raises ZeroDivisionError exactly for an empty file.
   */
  lemma ScoringDivisor(lines: seq<string>, parse: string -> real)
    ensures Grouped(ReadItems(lines)).Ok? ==> |Grouped(ReadItems(lines)).value| == |StubOrder(ReadItems(lines))|
    ensures Grouped(ReadItems(lines)).Ok? && lines != [] ==> |StubOrder(ReadItems(lines))| > 0
    ensures Scoring(lines, parse) == Err(DivisionByZero) <==> lines == []
  {
    var items := ReadItems(lines);
    if lines == [] {
      assert items == [];
      AveragesMeaning([]);
    }
    GroupedMeaning(items);
    GroupedFailsIndex(items);
    if Grouped(items).Ok? {
      var g := Grouped(items).value;
      StubOrderMeaning(items);
      if lines != [] {
        assert |items[0]| >= 2;
      }
      AllScoresFails(g, parse);
      if lines != [] && AllScores(g, parse).Ok? {
        AllScoresMeaning(g, parse);
        var sd := AllScores(g, parse).value;
        forall i | 0 <= i < |sd| ensures Unique(sd[i]) {
          GetAt(g, i);
          ScoresMeaning(g[i].1, parse);
        }
        AveragesMeaning(sd);
      }
    }
  }

  /**
   * For a file the program gets through, it prints the five countries in
   * letter order, each with its letter's summed score over the stubs divided
   * by the number of stubs; an empty file raises ZeroDivisionError.
   */
  lemma ScoringMeaning(lines: seq<string>, parse: string -> real)
    ensures Scoring(lines, parse) == Err(DivisionByZero) <==> lines == []
    ensures Scoring(lines, parse).Ok? ==>
      && Grouped(ReadItems(lines)).Ok?
      && AllScores(Grouped(ReadItems(lines)).value, parse).Ok?
      && |Grouped(ReadItems(lines)).value| == |StubOrder(ReadItems(lines))| > 0
      && |Scoring(lines, parse).value| == 5
    ensures Scoring(lines, parse).Ok? ==> forall c :: 0 <= c < 5 ==>
      Scoring(lines, parse).value[c] == (NAMES[c].1, Average(Grouped(ReadItems(lines)).value, parse, CONDITIONS[c]))
  {
    ScoringDivisor(lines, parse);
    if lines == [] {
      assert ReadItems(lines) == [];
      AveragesMeaning([]);
    }
    var items := ReadItems(lines);
    if Grouped(items).Ok? {
      var g := Grouped(items).value;
      GroupedMeaning(items);
      AllScoresMeaning(g, parse);
      if AllScores(g, parse).Ok? {
        var sd := AllScores(g, parse).value;
        forall i | 0 <= i < |sd| ensures Unique(sd[i]) {
          GetAt(g, i);
          ScoresMeaning(g[i].1, parse);
        }
        AveragesMeaning(sd);
      }
    }
  }

  // ------------------------------------------- loops that stop at a raise

  lemma {:induction false} AddScoresErr(acc: Table, d: Table, j: nat)
    requires j <= |d| && AddScores(acc, d[..j]).Err?
    ensures AddScores(acc, d) == AddScores(acc, d[..j])
    decreases |d| - j
  {
    if j < |d| {
      assert d[..j + 1][..j] == d[..j];
      AddScoresErr(acc, d, j + 1);
    } else {
      assert d[..j] == d;
    }
  }

  lemma {:induction false} AddAllErr(acc: Table, ds: seq<Table>, i: nat)
    requires i <= |ds| && AddAll(acc, ds[..i]).Err?
    ensures AddAll(acc, ds) == AddAll(acc, ds[..i])
    decreases |ds| - i
  {
    if i < |ds| {
      assert ds[..i + 1][..i] == ds[..i];
      AddAllErr(acc, ds, i + 1);
    } else {
      assert ds[..i] == ds;
    }
  }

  lemma {:induction false} ReportErr(t: Table, count: nat, m: nat)
    requires count > 0 && m <= |t| && Report(t[..m], count).Err?
    ensures Report(t, count) == Report(t[..m], count)
    decreases |t| - m
  {
    if m < |t| {
      assert t[..m + 1][..m] == t[..m];
      ReportErr(t, count, m + 1);
    } else {
      assert t[..m] == t;
    }
  }

  lemma {:induction false} GroupedErr(items: seq<Row>, i: nat)
    requires i <= |items| && Grouped(items[..i]).Err?
    ensures Grouped(items) == Grouped(items[..i])
    decreases |items| - i
  {
    if i < |items| {
      assert items[..i + 1][..i] == items[..i];
      GroupedErr(items, i + 1);
    } else {
      assert items[..i] == items;
    }
  }

  lemma {:induction false} AllScoresErr(g: Groups, parse: string -> real, i: nat)
    requires i <= |g| && AllScores(g[..i], parse).Err?
    ensures AllScores(g, parse) == AllScores(g[..i], parse)
    decreases |g| - i
  {
    if i < |g| {
      assert g[..i + 1][..i] == g[..i];
      AllScoresErr(g, parse, i + 1);
    } else {
      assert g[..i] == g;
    }
  }

  // ------------------------------------------------------ the program's loops

  /** The folding and removal loops of `score_condition` on one condition's dict. */
  method FoldOther(cdict: Table, labels: seq<string>) returns (r: Result<Table>)
    ensures r == Folded(cdict, labels)
  {
    var keys := Keys(cdict);
    var f := Fold(cdict, []);
    var i := 0;
    while i < |keys|
      invariant 0 <= i <= |keys|
      invariant FoldAll(cdict, keys[..i], labels, Query.OTHER) == Ok(f)
    {
      assert keys[..i + 1][..i] == keys[..i];
      var next := FoldTurn(f, keys[i], labels);
      if next.Err? {
        FoldAllErr(cdict, keys, i + 1, labels, Query.OTHER);
        return Err(next.failure);
      }
      f := next.value;
      i := i + 1;
    }
    assert keys[..i] == keys;
    var out := PopQueued(f.cur, f.rm);
    r := Ok(out);
  }

  /** One turn of the folding loop: a label outside `labels` is queued and its probability added to `OTHER`. */
  method FoldTurn(f: Fold, s: string, labels: seq<string>) returns (r: Result<Fold>)
    ensures r == FoldStep(f, s, labels, Query.OTHER)
  {
    if s in labels {
      return Ok(f);
    }
    var rm := f.rm + [s];
    var o := Get(f.cur, Query.OTHER);
    if o.None? {
      return Err(MissingKey);
    }
    var v := Get(f.cur, s);
    if v.None? {
      return Err(MissingKey);
    }
    r := Ok(Fold(Put(f.cur, Query.OTHER, o.value + v.value), rm));
  }

  /** The removal loop: `cdict.pop(s)` for every queued label. */
  method PopQueued(cur: Table, rm: seq<string>) returns (out: Table)
    ensures out == PopAll(cur, rm)
  {
    out := cur;
    var j := 0;
    while j < |rm|
      invariant 0 <= j <= |rm|
      invariant PopAll(out, rm[j..]) == PopAll(cur, rm)
    {
      assert rm[j..][1..] == rm[j + 1..];
      out := Remove(out, rm[j]);
      j := j + 1;
    }
  }

  /** The differences loop of `score_condition`. */
  method SumDiffs(refDict: Table, cdict: Table) returns (r: Result<real>)
    ensures r == Distance(refDict, cdict)
  {
    var diffs := 0.0;
    var i := 0;
    while i < |cdict|
      invariant 0 <= i <= |cdict|
      invariant Distance(refDict, cdict[..i]) == Ok(diffs)
    {
      assert cdict[..i + 1][..i] == cdict[..i];
      var (s, v) := cdict[i];
      var x := Get(refDict, s);
      if x.None? {
        DistanceErr(refDict, cdict, i + 1);
        return Err(MissingKey);
      }
      diffs := diffs + Abs(x.value - v);
      i := i + 1;
    }
    assert cdict[..i] == cdict;
    r := Ok(diffs);
  }

  /** `score_condition`: the score of every condition of one stub against its reference row. */
  method ScoreCondition(conds: Conditions, parse: string -> real) returns (r: Result<Table>)
    ensures r == Scores(conds, parse)
  {
    var reference := Get(conds, REFERENCE);
    if reference.None? {
      return Err(MissingKey);
    }
    var ref := reference.value;
    var completions := Window(ref);
    var n := |completions|;
    var keys := EvenCells(completions, n);
    var referenceDict := FromEntries(Zip(keys, OddValues(completions, n, parse)));
    var diffDict: Table := [];
    var i := 0;
    while i < |conds|
      invariant 0 <= i <= |conds|
      invariant ScoresOver(conds[..i], ref, parse) == Ok(diffDict)
    {
      assert conds[..i + 1][..i] == conds[..i];
      var next := ScoreTurn(diffDict, conds[i], ref, keys, referenceDict, parse);
      if next.Err? {
        ScoresOverErr(conds, ref, parse, i + 1);
        return Err(next.failure);
      }
      diffDict := next.value;
      i := i + 1;
    }
    assert conds[..i] == conds;
    r := Ok(diffDict);
  }

  /** One turn of the conditions loop: `diff_dict[key] = diffs` for a condition other than the reference. */
  method ScoreTurn(diffDict: Table, cond: (string, Row), ref: Row, keys: seq<string>, referenceDict: Table, parse: string -> real)
    returns (r: Result<Table>)
    requires keys == RefLabels(ref) && referenceDict == RefDict(ref, parse)
    ensures r == ScoreStep(diffDict, cond, ref, parse)
  {
    var (key, condition) := cond;
    if key == REFERENCE {
      return Ok(diffDict);
    }
    var diffs := ScoreRow(ref, keys, referenceDict, condition, parse);
    if diffs.Err? {
      return Err(diffs.failure);
    }
    r := Ok(Put(diffDict, key, diffs.value));
  }

  /**
   * The body of the conditions loop for one condition row: read its cells at
   * the reference's positions, fold, and add up the differences.
   */
  method ScoreRow(ref: Row, keys: seq<string>, referenceDict: Table, condition: Row, parse: string -> real)
    returns (r: Result<real>)
    requires keys == RefLabels(ref) && referenceDict == RefDict(ref, parse)
    ensures r == ConditionScore(ref, condition, parse)
  {
    var n := |Window(ref)|;
    var w := Window(condition);
    if |w| < n {
      return Err(IndexOutOfRange);
    }
    var cdict := FromEntries(Zip(EvenCells(w, n), OddValues(w, n, parse)));
    var folded := FoldOther(cdict, keys);
    if folded.Err? {
      return Err(folded.failure);
    }
    r := SumDiffs(referenceDict, folded.value);
  }

  /** `score_all_by_condition`: the totals loop, then one printed line per condition. */
  method ScoreAll(ds: seq<Table>) returns (r: Result<seq<(string, real)>>)
    ensures r == Averages(ds)
  {
    var diffDict := ZEROS;
    var i := 0;
    while i < |ds|
      invariant 0 <= i <= |ds|
      invariant AddAll(ZEROS, ds[..i]) == Ok(diffDict)
    {
      assert ds[..i + 1][..i] == ds[..i];
      var next := AddStub(diffDict, ds[i]);
      if next.Err? {
        AddAllErr(ZEROS, ds, i + 1);
        return Err(next.failure);
      }
      diffDict := next.value;
      i := i + 1;
    }
    assert ds[..i] == ds;
    if |ds| == 0 {
      return Err(DivisionByZero);
    }
    r := PrintAverages(diffDict, |ds|);
  }

  /** The inner loop of the totals: `diff_dict[k] += d[k]` for every key of one stub. */
  method AddStub(acc: Table, d: Table) returns (r: Result<Table>)
    ensures r == AddScores(acc, d)
  {
    var diffDict := acc;
    var j := 0;
    while j < |d|
      invariant 0 <= j <= |d|
      invariant AddScores(acc, d[..j]) == Ok(diffDict)
    {
      assert d[..j + 1][..j] == d[..j];
      assert AddScores(acc, d[..j + 1]) == AddEntry(diffDict, d[j]);
      var (k, v) := d[j];
      var x := Get(diffDict, k);
      if x.None? {
        AddScoresErr(acc, d, j + 1);
        return Err(MissingKey);
      }
      diffDict := Put(diffDict, k, x.value + v);
      j := j + 1;
    }
    assert d[..j] == d;
    r := Ok(diffDict);
  }

  /** The printing loop: each condition's country and its total over the number of stubs. */
  method PrintAverages(t: Table, count: nat) returns (r: Result<seq<(string, real)>>)
    requires count > 0
    ensures r == Report(t, count)
  {
    var lines: seq<(string, real)> := [];
    var m := 0;
    while m < |t|
      invariant 0 <= m <= |t|
      invariant Report(t[..m], count) == Ok(lines)
    {
      assert t[..m + 1][..m] == t[..m];
      var (k, total) := t[m];
      var name := Get(NAMES, k);
      if name.None? {
        ReportErr(t, count, m + 1);
        return Err(MissingKey);
      }
      lines := lines + [(name.value, total / count as real)];
      m := m + 1;
    }
    assert t[..m] == t;
    r := Ok(lines);
  }

  /** The grouping loop of the program's main function. */
  method GroupRows(items: seq<Row>) returns (r: Result<Groups>)
    ensures r == Grouped(items)
  {
    var conditions: Groups := [];
    var i := 0;
    while i < |items|
      invariant 0 <= i <= |items|
      invariant Grouped(items[..i]) == Ok(conditions)
    {
      assert items[..i + 1][..i] == items[..i];
      var item := items[i];
      if |item| < 2 {
        GroupedErr(items, i + 1);
        return Err(IndexOutOfRange);
      }
      var inner := Get(conditions, item[0]);
      if inner.Some? {
        conditions := Put(conditions, item[0], Put(inner.value, item[1], item));
      } else {
        conditions := Put(conditions, item[0], [(item[1], item)]);
      }
      i := i + 1;
    }
    assert items[..i] == items;
    r := Ok(conditions);
  }

  /** The program's main function on the lines of the results file. */
  method ScoreFile(lines: seq<string>, parse: string -> real) returns (r: Result<seq<(string, real)>>)
    ensures r == Scoring(lines, parse)
  {
    var items := ReadItems(lines);
    var grouped := GroupRows(items);
    if grouped.Err? {
      return Err(grouped.failure);
    }
    var conditions := grouped.value;
    var scoreDicts: seq<Table> := [];
    var i := 0;
    while i < |conditions|
      invariant 0 <= i <= |conditions|
      invariant AllScores(conditions[..i], parse) == Ok(scoreDicts)
    {
      assert conditions[..i + 1][..i] == conditions[..i];
      var d := ScoreCondition(conditions[i].1, parse);
      if d.Err? {
        AllScoresErr(conditions, parse, i + 1);
        return Err(d.failure);
      }
      scoreDicts := scoreDicts + [d.value];
      i := i + 1;
    }
    assert conditions[..i] == conditions;
    r := ScoreAll(scoreDicts);
  }
}
