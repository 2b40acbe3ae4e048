/**
 * From the top log-probabilities a completion model returns for each of N
 * samples of one prompt to one pooled probability table: the residual `OTHER`
 * entry is added to each sample, keys are cleaned, the samples' linear
 * probabilities are added up per label and the totals renormalised. Also the
 * trimming of the completion text and the label/probability layout of an
 * exported row.
 */
module Query {
  import opened Outcomes
  import opened Dicts
  import opened Text

  /** The label of the residual probability mass. */
  const OTHER: string := "OTHER"

  type Positive = r: real | 0.0 < r witness 1.0

  /** A natural-log probability `v`, represented by the linear probability `exp(v)` it stands for. */
  datatype LogProb = LogOf(linear: Positive)

  /** `math.exp(v)` */
  function Exp(v: LogProb): (p: real)
    ensures p > 0.0
  {
    v.linear
  }

  /** `math.log(x)`: a math domain error unless `x > 0`; otherwise `exp(log(x)) == x`. */
  function Log(x: real): (r: Result<LogProb>)
    ensures r.Ok? <==> x > 0.0
    ensures r.Ok? ==> Exp(r.value) == x
  {
    if x > 0.0 then Ok(LogOf(x)) else Err(LogOfNonPositive)
  }

  /** The linear probability of one entry. */
  function EntryMass(e: (string, LogProb)): real {
    Exp(e.1)
  }

  /** `sum(math.exp(v) for v in d.values())` */
  function Mass(es: seq<(string, LogProb)>): real {
    SumOver(es, EntryMass)
  }

  // ---------------------------------------------------------------- addOther

  /**
   * What `addOther` does to a dict's entries: store `log(1 - total)` under
   * `OTHER`, then check that the linear probabilities sum to exactly 1.
   */
  function AddOtherResult(es: seq<(string, LogProb)>): Result<seq<(string, LogProb)>> {
    match Log(1.0 - Mass(es))
    case Err(e) => Err(e)
    case Ok(other) =>
      var r := Put(es, OTHER, other);
      if Mass(r) != 1.0 then Err(ProbabilityLost) else Ok(r)
  }

  /**
   * The entries `addOther` leaves in the dict, whether it returns or raises:
   * untouched after a math domain error, with `OTHER` stored otherwise.
   */
  function AddOtherLeaves(es: seq<(string, LogProb)>): seq<(string, LogProb)> {
    match Log(1.0 - Mass(es))
    case Err(_) => es
    case Ok(other) => Put(es, OTHER, other)
  }

  /** `d[k] = v` changes the mass by the new value less the one it replaces. */
  lemma MassPut(es: seq<(string, LogProb)>, k: string, v: LogProb)
    requires Unique(es)
    ensures Mass(Put(es, k, v)) == Mass(es) - (match Get(es, k) case Some(u) => Exp(u) case None => 0.0) + Exp(v)
  {
    var i := IndexOf(es, k);
    if i < |es| {
      SumOverUpdate(es, i, (k, v), EntryMass);
    } else {
      SumOverSnoc(es, (k, v), EntryMass);
    }
  }

  /**
   * `addOther` succeeds exactly when the listed mass is below 1 and `OTHER`
   * is not yet a key; it then adds `OTHER` with `exp` equal to the missing
   * mass, keeps every other entry, and the result sums to 1.
   */
  lemma AddOtherOutcome(es: seq<(string, LogProb)>)
    requires Unique(es)
    ensures AddOtherResult(es).Ok? <==> Mass(es) < 1.0 && OTHER !in Keys(es)
    ensures Mass(es) >= 1.0 ==> AddOtherResult(es) == Err(LogOfNonPositive)
    ensures AddOtherResult(es).Ok? ==>
      var r := AddOtherResult(es).value;
      && Keys(r) == Keys(es) + [OTHER]
      && Get(r, OTHER).Some? && Exp(Get(r, OTHER).value) == 1.0 - Mass(es)
      && (forall k :: k != OTHER ==> Get(r, k) == Get(es, k))
      && Mass(r) == 1.0
  {
    if Mass(es) < 1.0 {
      var r := Put(es, OTHER, LogOf(1.0 - Mass(es)));
      MassPut(es, OTHER, LogOf(1.0 - Mass(es)));
      GetPut(es, OTHER, LogOf(1.0 - Mass(es)), OTHER);
      forall k | k != OTHER ensures Get(r, k) == Get(es, k) {
        GetPut(es, OTHER, LogOf(1.0 - Mass(es)), k);
      }
    }
  }

  /**
   * An `OTHER` already present counts toward the total and is then
   * overwritten in place, not added twice; the sum falls short of 1 by its old
   * mass, so the check fails.
   */
  lemma OtherAlreadyPresent(es: seq<(string, LogProb)>)
    requires Unique(es) && OTHER in Keys(es) && Mass(es) < 1.0
    ensures var r := Put(es, OTHER, LogOf(1.0 - Mass(es)));
      && Keys(r) == Keys(es)
      && Mass(r) == 1.0 - Exp(Get(es, OTHER).value)
      && AddOtherResult(es) == Err(ProbabilityLost)
  {
    MassPut(es, OTHER, LogOf(1.0 - Mass(es)));
  }

  /** Applying `addOther` to its own result raises: the total is already 1. */
  lemma AddOtherTwice(es: seq<(string, LogProb)>)
    requires Unique(es) && AddOtherResult(es).Ok?
    ensures AddOtherResult(AddOtherResult(es).value) == Err(LogOfNonPositive)
  {
    AddOtherOutcome(es);
  }

  /**
   * `addOther(d)`: mutates `d` and returns it. On a math domain error `d` is
   * untouched; when the final check fails, `OTHER` has already been stored.
   */
  method AddOther(d: Dict<string, LogProb>) returns (r: Result<Dict<string, LogProb>>)
    requires d.Valid()
    modifies d
    ensures d.Valid()
    ensures match AddOtherResult(old(d.entries))
      case Ok(es) => r == Ok(d) && d.entries == es
      case Err(e) => r == Err(e)
    ensures r == Err(LogOfNonPositive) ==> d.entries == old(d.entries)
    ensures r == Err(ProbabilityLost) ==>
      Mass(old(d.entries)) < 1.0 && d.entries == Put(old(d.entries), OTHER, LogOf(1.0 - Mass(old(d.entries))))
    ensures d.entries == AddOtherLeaves(old(d.entries))
  {
    var total := Mass(d.entries);
    var other := Log(1.0 - total);
    if other.Err? {
      return Err(other.failure);
    }
    d.Set(OTHER, other.value);
    if Mass(d.entries) != 1.0 {
      return Err(ProbabilityLost);
    }
    return Ok(d);
  }

  // --------------------------------------------------------------- stripKeys

  /** The cleaned key: stripped, and a literal backslash-n made a newline when the stripped key holds a real newline. */
  function CleanKey(k: string): string {
    var key := Strip(k);
    if '\n' in key then Replace(key, "\\n", "\n") else key
  }

  /**
   * Cleaning only strips a key whose stripped form has no newline, or has no
   * literal backslash-n to rewrite; and it adds no character but a newline.
   */
  lemma CleanKeyMeaning(k: string)
    ensures '\n' !in Strip(k) ==> CleanKey(k) == Strip(k) && IsStripped(CleanKey(k))
    ensures !Occurs("\\n", Strip(k)) ==> CleanKey(k) == Strip(k)
    ensures forall c :: c !in k && c != '\n' ==> c !in CleanKey(k)
  {
    forall c | c !in k && c != '\n'
      ensures c !in CleanKey(k)
    {
      StripAvoids(k, c);
      if '\n' in Strip(k) {
        ReplaceAvoids(Strip(k), "\\n", "\n", c);
      }
    }
    if !Occurs("\\n", Strip(k)) {
      ReplaceAbsent(Strip(k), "\\n", "\n");
    }
  }

  /**
   * One turn of the `stripKeys` loop for snapshot key `k`, with `clean` the
   * key-cleaning function: a key whose cleaned form differs moves its value
   * under the cleaned key, overwriting any entry there, and is popped. (`k` is
   * always present when its turn comes: see StripAllNext.)
   */
  function StripStep<V>(es: seq<(string, V)>, k: string, clean: string -> string): seq<(string, V)> {
    var key := clean(k);
    if key == k then es
    else match Get(es, k)
      case Some(v) => Remove(Put(es, key, v), k)
      case None => es
  }

  /** The loop over the snapshot `ks`, one turn per key in order. */
  function StripAll<V>(es: seq<(string, V)>, ks: seq<string>, clean: string -> string): seq<(string, V)> {
    if ks == [] then es else StripStep(StripAll(es, ks[..|ks| - 1], clean), ks[|ks| - 1], clean)
  }

  /** `stripKeys` on a dict's entries: the loop over a snapshot of its keys. */
  function Stripped<V>(es: seq<(string, V)>): seq<(string, V)> {
    StripAll(es, Keys(es), CleanKey)
  }

  /**
   * One turn: a key that is already clean leaves the dict alone; otherwise its
   * value lands under the cleaned key (overwriting) and the key is gone, and
   * every other key keeps its value.
   */
  lemma StripStepEffect<V>(es: seq<(string, V)>, k: string, clean: string -> string)
    requires Unique(es) && k in Keys(es)
    ensures Unique(StripStep(es, k, clean))
    ensures clean(k) == k ==> StripStep(es, k, clean) == es
    ensures clean(k) != k ==>
      && Get(StripStep(es, k, clean), clean(k)) == Get(es, k)
      && Get(StripStep(es, k, clean), k) == None
      && forall k' :: k' != k && k' != clean(k) ==> Get(StripStep(es, k, clean), k') == Get(es, k')
  {
    var key := clean(k);
    if key != k {
      var v := Get(es, k).value;
      var p := Put(es, key, v);
      UniquePut(es, key, v);
      GetRemove(p, k, k);
      GetRemove(p, k, key);
      GetPut(es, key, v, key);
      forall k' | k' != k && k' != key ensures Get(StripStep(es, k, clean), k') == Get(es, k') {
        GetRemove(p, k, k');
        GetPut(es, key, v, k');
      }
    }
  }

  /** A turn keeps every other key present and the dict free of duplicates. */
  lemma StripStepKeeps<V>(es: seq<(string, V)>, k: string, k': string, clean: string -> string)
    requires Unique(es) && k' in Keys(es) && k' != k
    ensures Unique(StripStep(es, k, clean)) && k' in Keys(StripStep(es, k, clean))
  {
    var key := clean(k);
    if key != k && Get(es, k).Some? {
      var v := Get(es, k).value;
      var p := Put(es, key, v);
      UniquePut(es, key, v);
      GetPut(es, key, v, k');
      GetRemove(p, k, k');
    }
  }

  lemma StripAllUnique<V>(es: seq<(string, V)>, ks: seq<string>, clean: string -> string)
    requires Unique(es)
    ensures Unique(StripAll(es, ks, clean))
  {
    if ks != [] {
      var prev := StripAll(es, ks[..|ks| - 1], clean);
      StripAllUnique(es, ks[..|ks| - 1], clean);
      var k := ks[|ks| - 1];
      if clean(k) != k && Get(prev, k).Some? {
        UniquePut(prev, clean(k), Get(prev, k).value);
        GetRemove(Put(prev, clean(k), Get(prev, k).value), k, k);
      }
    }
  }

  lemma {:induction false} StripAllClean<V>(es: seq<(string, V)>, ks: seq<string>, clean: string -> string)
    requires forall i :: 0 <= i < |ks| ==> clean(ks[i]) == ks[i]
    ensures StripAll(es, ks, clean) == es
  {
    if ks != [] {
      StripAllClean(es, ks[..|ks| - 1], clean);
    }
  }

  /** `stripKeys` returns a dict of already-clean keys unchanged. */
  lemma StrippedClean<V>(es: seq<(string, V)>)
    requires forall i :: 0 <= i < |es| ==> CleanKey(es[i].0) == es[i].0
    ensures Stripped(es) == es
  {
    StripAllClean(es, Keys(es), CleanKey);
  }

  /** The keys the dict is intended to have after the first `m` turns when no cleaned keys collide. */
  function RenamedKeys(ks: seq<string>, m: nat, clean: string -> string): seq<string> {
    seq(|ks|, j requires 0 <= j < |ks| => if j < m then clean(ks[j]) else ks[j])
  }

  /** The cleaned form of each key, in order. */
  function CleanedKeys<V>(es: seq<(string, V)>): seq<string> {
    seq(|es|, j requires 0 <= j < |es| => CleanKey(es[j].0))
  }

  /** No two keys clean to the same key, and no changed key cleans to another key of the dict. */
  ghost predicate NoCollisions(ks: seq<string>, clean: string -> string) {
    && (forall i, j :: 0 <= i < |ks| && 0 <= j < |ks| && clean(ks[i]) == clean(ks[j]) ==> i == j)
    && (forall i, j :: 0 <= i < |ks| && 0 <= j < |ks| && clean(ks[i]) != ks[i] ==> clean(ks[i]) != ks[j])
  }

  /** After the first `m` turns without collisions: each value sits under its intended key, and there is nothing else. */
  ghost predicate RenamedUpTo<V>(es: seq<(string, V)>, m: nat, cur: seq<(string, V)>, clean: string -> string) {
    && Unique(cur) && |cur| == |es|
    && (forall k :: k in Keys(cur) <==> k in RenamedKeys(Keys(es), m, clean))
    && (forall j :: 0 <= j < |es| ==> Get(cur, RenamedKeys(Keys(es), m, clean)[j]) == Some(es[j].1))
  }

  /** Turn `m` moves a key: its cleaned form is not yet intended, and the key itself is intended nowhere afterwards. */
  lemma MovedKeyFresh(ks: seq<string>, m: nat, after: seq<string>, clean: string -> string)
    requires m < |ks| && NoCollisions(ks, clean) && clean(ks[m]) != ks[m]
    requires forall i, j :: 0 <= i < j < |ks| ==> ks[i] != ks[j]
    requires after == RenamedKeys(ks, m + 1, clean)
    ensures clean(ks[m]) !in RenamedKeys(ks, m, clean)
    ensures forall j :: 0 <= j < |ks| && j != m ==> after[j] != ks[m]
  {
    var before := RenamedKeys(ks, m, clean);
    forall j | 0 <= j < |ks| ensures before[j] != clean(ks[m]) {
      if j < m {
        assert clean(ks[j]) != clean(ks[m]);
      } else {
        assert clean(ks[m]) != ks[j];
      }
    }
    forall j | 0 <= j < |ks| && j != m ensures after[j] != ks[m] {
      if j < m {
        if clean(ks[j]) == ks[j] {
          assert ks[j] != ks[m];
        } else {
          assert clean(ks[j]) != ks[m];
        }
      } else {
        assert ks[j] != ks[m];
      }
    }
  }

  /** The intended keys before and after a turn that renames position `m` from `k` to `key`. */
  ghost predicate RenamesAt(before: seq<string>, after: seq<string>, m: nat, k: string, key: string) {
    && |before| == |after| && m < |before|
    && before[m] == k && after[m] == key && k != key && key !in before
    && forall j :: 0 <= j < |before| && j != m ==> before[j] == after[j] && after[j] != k
  }

  /** A dict that loses `k`, gains `key` with `k`'s value and keeps the rest has the new intended keys. */
  lemma RenamedKeysFollow<V>(prev: seq<(string, V)>, r: seq<(string, V)>, before: seq<string>, after: seq<string>, m: nat, k: string, key: string)
    requires RenamesAt(before, after, m, k, key)
    requires forall k' :: k' in Keys(prev) <==> k' in before
    requires Get(r, key) == Get(prev, k) && Get(r, k) == None
    requires forall k' :: k' != k && k' != key ==> Get(r, k') == Get(prev, k')
    ensures forall k' :: k' in Keys(r) <==> k' in after
  {
    forall k' ensures k' in Keys(r) <==> k' in after {
      if k' != k && k' != key {
        assert Get(r, k') == Get(prev, k');
        if k' in before {
          var j :| 0 <= j < |before| && before[j] == k';
          assert after[j] == k';
        }
        if k' in after {
          var j :| 0 <= j < |after| && after[j] == k';
          assert before[j] == k';
        }
      }
    }
  }

  /** ... and every value is found under its new intended key. */
  lemma RenamedValuesFollow<V>(es: seq<(string, V)>, prev: seq<(string, V)>, r: seq<(string, V)>, before: seq<string>, after: seq<string>, m: nat, k: string, key: string)
    requires RenamesAt(before, after, m, k, key) && |before| == |es|
    requires forall j :: 0 <= j < |es| ==> Get(prev, before[j]) == Some(es[j].1)
    requires Get(r, key) == Get(prev, k)
    requires forall k' :: k' != k && k' != key ==> Get(r, k') == Get(prev, k')
    ensures forall j :: 0 <= j < |es| ==> Get(r, after[j]) == Some(es[j].1)
  {
    forall j | 0 <= j < |es| ensures Get(r, after[j]) == Some(es[j].1) {
      if j != m {
        assert after[j] != key by {
          assert before[j] == after[j];
        }
        assert Get(r, after[j]) == Get(prev, before[j]);
      }
    }
  }

  /** A renaming turn keeps the length: the cleaned key is new and `k` was present. */
  lemma RenameKeepsLength<V>(prev: seq<(string, V)>, k: string, clean: string -> string)
    requires Unique(prev) && k in Keys(prev) && clean(k) !in Keys(prev)
    ensures |StripStep(prev, k, clean)| == |prev|
  {
    var v := Get(prev, k).value;
    var p := Put(prev, clean(k), v);
    assert |p| == |prev| + 1;
    assert k in Keys(p);
    assert IndexOf(p, k) < |p|;
  }

  /** A turn whose key changes renames its position from the key to the cleaned key. */
  lemma MovedRenamesAt(ks: seq<string>, m: nat, clean: string -> string)
    requires m < |ks| && NoCollisions(ks, clean) && clean(ks[m]) != ks[m]
    requires forall i, j :: 0 <= i < j < |ks| ==> ks[i] != ks[j]
    ensures RenamesAt(RenamedKeys(ks, m, clean), RenamedKeys(ks, m + 1, clean), m, ks[m], clean(ks[m]))
  {
    MovedKeyFresh(ks, m, RenamedKeys(ks, m + 1, clean), clean);
  }

  /** A renaming turn takes a dict with the intended keys before it to one with the intended keys after it. */
  lemma RenameFollows<V>(es: seq<(string, V)>, prev: seq<(string, V)>, before: seq<string>, after: seq<string>, m: nat, clean: string -> string)
    requires m < |before| == |es| && RenamesAt(before, after, m, before[m], clean(before[m]))
    requires Unique(prev) && |prev| == |es|
    requires forall k :: k in Keys(prev) <==> k in before
    requires forall j :: 0 <= j < |es| ==> Get(prev, before[j]) == Some(es[j].1)
    ensures var r := StripStep(prev, before[m], clean);
      && Unique(r) && |r| == |es|
      && (forall k :: k in Keys(r) <==> k in after)
      && (forall j :: 0 <= j < |es| ==> Get(r, after[j]) == Some(es[j].1))
  {
    var k, key := before[m], clean(before[m]);
    var r := StripStep(prev, k, clean);
    assert k in Keys(prev) && key !in Keys(prev);
    StripStepEffect(prev, k, clean);
    RenameKeepsLength(prev, k, clean);
    RenamedKeysFollow(prev, r, before, after, m, k, key);
    RenamedValuesFollow(es, prev, r, before, after, m, k, key);
  }

  lemma RenameMoved<V>(es: seq<(string, V)>, m: nat, prev: seq<(string, V)>, clean: string -> string)
    requires Unique(es) && m < |es| && NoCollisions(Keys(es), clean) && RenamedUpTo(es, m, prev, clean)
    requires clean(Keys(es)[m]) != Keys(es)[m]
    ensures RenamedUpTo(es, m + 1, StripStep(prev, Keys(es)[m], clean), clean)
  {
    var ks := Keys(es);
    var before := RenamedKeys(ks, m, clean);
    assert before[m] == ks[m];
    MovedRenamesAt(ks, m, clean);
    RenameFollows(es, prev, before, RenamedKeys(ks, m + 1, clean), m, clean);
  }

  lemma RenamedStart<V>(es: seq<(string, V)>, clean: string -> string)
    requires Unique(es)
    ensures RenamedUpTo(es, 0, es, clean)
  {
    assert RenamedKeys(Keys(es), 0, clean) == Keys(es);
    forall j | 0 <= j < |es| ensures Get(es, Keys(es)[j]) == Some(es[j].1) {
      GetAt(es, j);
    }
  }

  lemma RenameClean<V>(es: seq<(string, V)>, m: nat, prev: seq<(string, V)>, clean: string -> string)
    requires m < |es| && RenamedUpTo(es, m, prev, clean) && clean(Keys(es)[m]) == Keys(es)[m]
    ensures RenamedUpTo(es, m + 1, StripStep(prev, Keys(es)[m], clean), clean)
  {
    var ks := Keys(es);
    assert StripStep(prev, ks[m], clean) == prev;
    var before, after := RenamedKeys(ks, m, clean), RenamedKeys(ks, m + 1, clean);
    forall j | 0 <= j < |ks| ensures before[j] == after[j] {
      if j == m {
        assert before[j] == ks[m] && after[j] == clean(ks[m]);
      }
    }
    assert before == after;
  }

  lemma RenameStep<V>(es: seq<(string, V)>, m: nat, prev: seq<(string, V)>, clean: string -> string)
    requires Unique(es) && m < |es| && NoCollisions(Keys(es), clean) && RenamedUpTo(es, m, prev, clean)
    ensures RenamedUpTo(es, m + 1, StripStep(prev, Keys(es)[m], clean), clean)
  {
    if clean(Keys(es)[m]) == Keys(es)[m] {
      RenameClean(es, m, prev, clean);
    } else {
      RenameMoved(es, m, prev, clean);
    }
  }

  lemma {:induction false} StripAllRenames<V>(es: seq<(string, V)>, m: nat, clean: string -> string)
    requires Unique(es) && m <= |es| && NoCollisions(Keys(es), clean)
    ensures RenamedUpTo(es, m, StripAll(es, Keys(es)[..m], clean), clean)
  {
    var ks := Keys(es);
    if m == 0 {
      assert ks[..0] == [];
      RenamedStart(es, clean);
    } else {
      StripAllRenames(es, m - 1, clean);
      assert ks[..m][..m - 1] == ks[..m - 1];
      RenameStep(es, m - 1, StripAll(es, ks[..m - 1], clean), clean);
    }
  }

  /**
   * Without collisions `stripKeys` renames: each entry's value ends up under
   * its cleaned key, and nothing else is in the dict.
   */
  lemma StrippedRenames<V>(es: seq<(string, V)>)
    requires Unique(es) && NoCollisions(Keys(es), CleanKey)
    ensures |Stripped(es)| == |es|
    ensures forall j :: 0 <= j < |es| ==> Get(Stripped(es), CleanKey(es[j].0)) == Some(es[j].1)
    ensures forall k :: k in Keys(Stripped(es)) <==> k in CleanedKeys(es)
  {
    var ks := Keys(es);
    StripAllRenames(es, |es|, CleanKey);
    assert ks[..|es|] == ks;
    assert RenamedKeys(ks, |es|, CleanKey) == CleanedKeys(es) by {
      forall j | 0 <= j < |es| ensures RenamedKeys(ks, |es|, CleanKey)[j] == CleanedKeys(es)[j] {
      }
    }
  }

  lemma CleanKeyExamples()
    ensures CleanKey(" a") == "a" && CleanKey("a") == "a"
  {
    assert " a"[1..] == "a";
    assert TrimLeft(" a") == "a";
    assert Strip("a") == "a";
  }

  /** A literal backslash-n becomes a newline only in a key that holds a real newline. */
  lemma CleanKeyNewlineExamples()
    ensures CleanKey("a\n\\n") == "a\n\n"
    ensures CleanKey("\\n") == "\\n"
  {
    assert TrimLeft("a\n\\n") == "a\n\\n";
    assert Strip("a\n\\n") == "a\n\\n";
    assert Replace("\\n", "\\n", "\n") == "\n";
    assert Replace("\n\\n", "\\n", "\n") == "\n\n";
    assert TrimLeft("\\n") == "\\n";
    assert Strip("\\n") == "\\n";
  }

  lemma StripStepExample(x: real, y: real)
    ensures StripStep([(" a", x), ("a", y)], " a", CleanKey) == [("a", x)]
  {
    var es := [(" a", x), ("a", y)];
    CleanKeyExamples();
    assert Get(es, " a") == Some(x) by {
      assert IndexOf(es, " a") == 0;
    }
    var p := [(" a", x), ("a", x)];
    assert Put(es, "a", x) == p by {
      assert IndexOf(es, "a") == 1;
    }
    assert Remove(p, " a") == [("a", x)] by {
      assert IndexOf(p, " a") == 0;
    }
  }

  /** A collision overwrites: of `" a"` and `"a"`, the value of `" a"` survives under `"a"`. */
  lemma CollisionOverwrites(x: real, y: real)
    ensures Stripped([(" a", x), ("a", y)]) == [("a", x)]
  {
    var es := [(" a", x), ("a", y)];
    var ks := Keys(es);
    assert ks == [" a", "a"];
    assert ks[..1] == [" a"] && ks[..1][..0] == [];
    StripStepExample(x, y);
    CleanKeyExamples();
    assert StripAll(es, ks[..1], CleanKey) == [("a", x)];
  }

  /** The loop's next turn, and the snapshot keys still to come are still there after it. */
  lemma StripAllNext<V>(es: seq<(string, V)>, i: nat, clean: string -> string)
    requires Unique(es) && i < |es|
    requires forall j :: i <= j < |es| ==> Keys(es)[j] in Keys(StripAll(es, Keys(es)[..i], clean))
    ensures StripAll(es, Keys(es)[..i + 1], clean) == StripStep(StripAll(es, Keys(es)[..i], clean), Keys(es)[i], clean)
    ensures Unique(StripAll(es, Keys(es)[..i + 1], clean))
    ensures forall j :: i < j < |es| ==> Keys(es)[j] in Keys(StripAll(es, Keys(es)[..i + 1], clean))
  {
    var ks := Keys(es);
    assert ks[..i + 1][..i] == ks[..i];
    var prev := StripAll(es, ks[..i], clean);
    StripAllUnique(es, ks[..i], clean);
    StripAllUnique(es, ks[..i + 1], clean);
    forall j | i < j < |es| ensures ks[j] in Keys(StripStep(prev, ks[i], clean)) {
      StripStepKeeps(prev, ks[i], ks[j], clean);
    }
  }

  /** One turn of the `stripKeys` loop, for snapshot key `k`, on the dict object itself. */
  method StripTurn<V>(d: Dict<string, V>, k: string)
    requires d.Valid() && k in Keys(d.entries)
    modifies d
    ensures d.Valid() && d.entries == StripStep(old(d.entries), k, CleanKey)
  {
    var key := CleanKey(k);
    if key != k {
      var v := Get(d.entries, k).value;
      d.Set(key, v);
      var _ := d.Pop(k);
    }
  }

  /**
   * `stripKeys(d)`: the loop over a snapshot of the keys; keys inserted
   * during the loop are not visited. Mutates `d` and returns it.
   */
  method StripKeys<V>(d: Dict<string, V>) returns (r: Dict<string, V>)
    requires d.Valid()
    modifies d
    ensures r == d && d.Valid()
    ensures d.entries == Stripped(old(d.entries))
  {
    var keys := Keys(d.entries);
    ghost var es := d.entries;
    var i := 0;
    while i < |keys|
      invariant 0 <= i <= |keys|
      invariant d.Valid()
      invariant d.entries == StripAll(es, keys[..i], CleanKey)
      invariant forall j :: i <= j < |keys| ==> keys[j] in Keys(d.entries)
    {
      StripAllNext(es, i, CleanKey);
      StripTurn(d, keys[i]);
      i := i + 1;
    }
    assert keys[..i] == keys;
    r := d;
  }

  // ----------------------------------------------------------------- pooling

  /** `[i for d in log_prob_dicts for i in d.items()]` */
  function Flatten(ds: seq<seq<(string, LogProb)>>): seq<(string, LogProb)> {
    if ds == [] then [] else ds[0] + Flatten(ds[1..])
  }

  /** `new_probs` once the first loop has seen `items`. */
  function Accumulated(items: seq<(string, LogProb)>): seq<(string, real)> {
    if items == [] then []
    else
      var (k, v) := items[|items| - 1];
      AddUp(Accumulated(items[..|items| - 1]), k, v)
  }

  /** One turn of the first loop: add `exp(v)` to the running total under `k`, starting at 0. */
  function AddUp(acc: seq<(string, real)>, k: string, v: LogProb): seq<(string, real)> {
    match Get(acc, k)
    case Some(p) => Put(acc, k, p + Exp(v))
    case None => Put(acc, k, Exp(v))
  }

  /** Every value divided by `norm`. */
  function Normalized(es: seq<(string, real)>, norm: real): seq<(string, real)>
    requires es == [] || norm != 0.0
  {
    seq(|es|, i requires 0 <= i < |es| => (es[i].0, es[i].1 / norm))
  }

  /** A sample's linear probability for label `k`; an absent label counts 0. */
  function SampleMass(d: seq<(string, LogProb)>, k: string): real {
    match Get(d, k)
    case Some(v) => Exp(v)
    case None => 0.0
  }

  function SampleMassOf(k: string): seq<(string, LogProb)> -> real {
    d => SampleMass(d, k)
  }

  /** Label `k`'s linear probability added up over the samples. */
  function PooledMass(ds: seq<seq<(string, LogProb)>>, k: string): real {
    SumOver(ds, SampleMassOf(k))
  }

  /** All linear probabilities of all samples added up. */
  function GrandTotal(ds: seq<seq<(string, LogProb)>>): real {
    SumOver(ds, Mass)
  }

  /** The labels that occur in some sample. */
  ghost predicate InSomeSample(ds: seq<seq<(string, LogProb)>>, k: string) {
    exists i :: 0 <= i < |ds| && k in Keys(ds[i])
  }

  /** The pooled table of `run_one_item`: added-up linear probabilities over their grand total. */
  function Pooling(ds: seq<seq<(string, LogProb)>>): seq<(string, real)> {
    var items := Flatten(ds);
    AccumulatedFacts(items);
    var acc := Accumulated(items);
    Normalized(acc, SumOver(acc, Value))
  }

  lemma {:induction false} SumOverAtAbsent<V>(xs: seq<(string, V)>, k: string, f: V -> real)
    requires k !in Keys(xs)
    ensures SumOver(xs, At(k, f)) == 0.0
  {
    if xs != [] {
      assert k !in Keys(xs[1..]) by {
        assert forall i :: 0 <= i < |xs| - 1 ==> Keys(xs[1..])[i] == Keys(xs)[i + 1];
      }
      SumOverAtAbsent(xs[1..], k, f);
    }
  }

  lemma SumOverPositive<T>(xs: seq<T>, f: T -> real)
    requires xs != [] && forall i :: 0 <= i < |xs| ==> f(xs[i]) > 0.0
    ensures SumOver(xs, f) > 0.0
  {
    TermAtMostSum(xs, 0, f);
  }

  /** `acc` holds, once per label seen in `items`, the label's linear probabilities added up. */
  ghost predicate Tallies(items: seq<(string, LogProb)>, acc: seq<(string, real)>) {
    && Unique(acc)
    && (forall k :: k in Keys(acc) <==> k in Keys(items))
    && (forall j :: 0 <= j < |acc| ==> acc[j].1 == SumOver(items, At(acc[j].0, Exp)))
    && (forall j :: 0 <= j < |acc| ==> acc[j].1 > 0.0)
    && SumOver(acc, Value) == Mass(items)
  }

  lemma SumOverAtSnoc(items: seq<(string, LogProb)>, k: string, v: LogProb)
    ensures forall k' :: SumOver(items + [(k, v)], At(k', Exp)) == SumOver(items, At(k', Exp)) + (if k' == k then Exp(v) else 0.0)
  {
    forall k' ensures SumOver(items + [(k, v)], At(k', Exp)) == SumOver(items, At(k', Exp)) + (if k' == k then Exp(v) else 0.0) {
      SumOverSnoc(items, (k, v), At(k', Exp));
    }
  }

  /** A turn for a label seen before adds to its total. */
  lemma TalliesSeen(items: seq<(string, LogProb)>, acc: seq<(string, real)>, k: string, v: LogProb)
    requires Tallies(items, acc) && k in Keys(acc)
    ensures Tallies(items + [(k, v)], AddUp(acc, k, v))
  {
    var i := IndexOf(acc, k);
    var p := acc[i].1;
    var r := AddUp(acc, k, v);
    assert r == acc[i := (k, p + Exp(v))];
    SumOverUpdate(acc, i, (k, p + Exp(v)), Value);
    SumOverSnoc(items, (k, v), EntryMass);
    SumOverAtSnoc(items, k, v);
    assert Keys(items + [(k, v)]) == Keys(items) + [k];
    assert forall j :: 0 <= j < |r| && j != i ==> r[j] == acc[j] && acc[j].0 != k;
    UniquePut(acc, k, p + Exp(v));
  }

  /** A turn for a new label appends it with its first probability. */
  lemma TalliesNew(items: seq<(string, LogProb)>, acc: seq<(string, real)>, k: string, v: LogProb)
    requires Tallies(items, acc) && k !in Keys(acc)
    ensures Tallies(items + [(k, v)], AddUp(acc, k, v))
  {
    var r := AddUp(acc, k, v);
    var next := items + [(k, v)];
    assert r == acc + [(k, Exp(v))];
    SumOverSnoc(acc, (k, Exp(v)), Value);
    SumOverSnoc(items, (k, v), EntryMass);
    assert Keys(next) == Keys(items) + [k];
    UniquePut(acc, k, Exp(v));
    forall j | 0 <= j < |r|
      ensures r[j].1 == SumOver(next, At(r[j].0, Exp))
    {
      SumOverSnoc(items, (k, v), At(r[j].0, Exp));
      if j == |acc| {
        SumOverAtAbsent(items, k, Exp);
      } else {
        assert r[j] == acc[j] && acc[j].0 != k;
      }
    }
  }

  /**
   * After the first loop: one entry per label seen, holding the label's
   * linear probabilities added up, and the values add up to the mass seen.
   */
  lemma {:induction false} AccumulatedFacts(items: seq<(string, LogProb)>)
    ensures Tallies(items, Accumulated(items))
    ensures Accumulated(items) != [] ==> SumOver(Accumulated(items), Value) > 0.0
  {
    if items != [] {
      var front := items[..|items| - 1];
      var (k, v) := items[|items| - 1];
      assert items == front + [(k, v)];
      AccumulatedFacts(front);
      if k in Keys(Accumulated(front)) {
        TalliesSeen(front, Accumulated(front), k, v);
      } else {
        TalliesNew(front, Accumulated(front), k, v);
      }
      SumOverPositive(Accumulated(items), Value);
    }
  }

  /** What flattening keeps: the labels of all samples, each label's mass and the grand total. */
  lemma {:induction false} FlattenFacts(ds: seq<seq<(string, LogProb)>>)
    requires forall i :: 0 <= i < |ds| ==> Unique(ds[i])
    ensures forall k :: k in Keys(Flatten(ds)) <==> InSomeSample(ds, k)
    ensures forall k :: SumOver(Flatten(ds), At(k, Exp)) == PooledMass(ds, k)
    ensures Mass(Flatten(ds)) == GrandTotal(ds)
  {
    if ds != [] {
      var rest := ds[1..];
      FlattenFacts(rest);
      var flat := Flatten(ds);
      assert flat == ds[0] + Flatten(rest);
      assert Keys(flat) == Keys(ds[0]) + Keys(Flatten(rest));
      forall k ensures k in Keys(flat) <==> InSomeSample(ds, k) {
        if InSomeSample(rest, k) {
          var i :| 0 <= i < |rest| && k in Keys(rest[i]);
          assert k in Keys(ds[i + 1]);
        }
        if InSomeSample(ds, k) {
          var i :| 0 <= i < |ds| && k in Keys(ds[i]);
          if i > 0 {
            assert k in Keys(rest[i - 1]);
          }
        }
      }
      forall k ensures SumOver(flat, At(k, Exp)) == PooledMass(ds, k) {
        SumOverConcat(ds[0], Flatten(rest), At(k, Exp));
        SumOverAt(ds[0], k, Exp);
      }
      SumOverConcat(ds[0], Flatten(rest), EntryMass);
    }
  }

  lemma SumNormalized(es: seq<(string, real)>, norm: real)
    requires norm != 0.0
    ensures SumOver(Normalized(es, norm), Value) == SumOver(es, Value) / norm
  {
    if es != [] {
      assert Normalized(es, norm)[1..] == Normalized(es[1..], norm);
      SumNormalized(es[1..], norm);
      assert (es[0].1 + SumOver(es[1..], Value)) / norm == es[0].1 / norm + SumOver(es[1..], Value) / norm;
    }
  }

  /** Dividing positive values by their sum keeps the keys and gives values in (0, 1] that sum to 1. */
  lemma NormalizedFacts(acc: seq<(string, real)>)
    requires acc != [] && forall j :: 0 <= j < |acc| ==> acc[j].1 > 0.0
    ensures SumOver(acc, Value) > 0.0
    ensures var r := Normalized(acc, SumOver(acc, Value));
      && Keys(r) == Keys(acc)
      && (forall j :: 0 <= j < |r| ==> r[j].1 == acc[j].1 / SumOver(acc, Value))
      && (forall j :: 0 <= j < |r| ==> 0.0 < r[j].1 <= 1.0)
      && SumOver(r, Value) == 1.0
  {
    var total := SumOver(acc, Value);
    SumOverPositive(acc, Value);
    var r := Normalized(acc, total);
    assert SumOver(r, Value) == 1.0 by {
      SumNormalized(acc, total);
      WholeShare(total);
    }
    NormalizedBounds(acc, total);
    assert Keys(r) == Keys(acc) by {
      assert forall j :: 0 <= j < |r| ==> r[j].0 == acc[j].0;
    }
  }

  lemma NormalizedBounds(acc: seq<(string, real)>, total: real)
    requires forall j :: 0 <= j < |acc| ==> acc[j].1 > 0.0
    requires total == SumOver(acc, Value) && total > 0.0
    ensures forall j :: 0 <= j < |acc| ==> 0.0 < Normalized(acc, total)[j].1 <= 1.0
  {
    forall j | 0 <= j < |acc| ensures 0.0 < Normalized(acc, total)[j].1 <= 1.0 {
      TermAtMostSum(acc, j, Value);
      ShareAtMostOne(acc[j].1, total);
    }
  }

  lemma WholeShare(t: real)
    requires t > 0.0
    ensures t / t == 1.0
  {
  }

  lemma ShareAtMostOne(a: real, t: real)
    requires 0.0 < a <= t
    ensures 0.0 < a / t <= 1.0
  {
    assert a / t == a * (1.0 / t);
    assert 1.0 / t > 0.0;
    assert a * (1.0 / t) <= t * (1.0 / t);
  }

  /**
   * The pooled table has exactly the labels of the samples; each value is the
   * label's mass added up over the samples (absent counts 0) over the grand
   * total; the values lie in (0, 1] and sum to 1.
   */
  lemma PoolingMeaning(ds: seq<seq<(string, LogProb)>>)
    requires forall i :: 0 <= i < |ds| ==> Unique(ds[i])
    ensures var r := Pooling(ds);
      && Unique(r)
      && (forall k :: k in Keys(r) <==> InSomeSample(ds, k))
      && (r != [] ==> GrandTotal(ds) > 0.0)
      && (forall j :: 0 <= j < |r| ==> r[j].1 == PooledMass(ds, r[j].0) / GrandTotal(ds))
      && (r != [] ==> SumOver(r, Value) == 1.0)
      && (forall j :: 0 <= j < |r| ==> 0.0 < r[j].1 <= 1.0)
  {
    var items := Flatten(ds);
    AccumulatedFacts(items);
    FlattenFacts(ds);
    var acc := Accumulated(items);
    var r := Pooling(ds);
    if acc != [] {
      NormalizedFacts(acc);
      assert Unique(r) by {
        assert forall j :: 0 <= j < |r| ==> r[j].0 == acc[j].0;
      }
    }
  }

  /** Looking a label up in the pooled table. */
  lemma PoolingGet(ds: seq<seq<(string, LogProb)>>, k: string)
    requires forall i :: 0 <= i < |ds| ==> Unique(ds[i])
    ensures InSomeSample(ds, k) ==> GrandTotal(ds) > 0.0
    ensures Get(Pooling(ds), k) ==
      if InSomeSample(ds, k) then Some(PooledMass(ds, k) / GrandTotal(ds)) else None
  {
    PoolingMeaning(ds);
    var r := Pooling(ds);
    var i := IndexOf(r, k);
    if i < |r| {
      GetAt(r, i);
    }
  }

  /** Pooling does not depend on the order of the samples. */
  lemma PoolingOrderFree(ds: seq<seq<(string, LogProb)>>, ds': seq<seq<(string, LogProb)>>)
    requires forall i :: 0 <= i < |ds| ==> Unique(ds[i])
    requires multiset(ds) == multiset(ds')
    ensures forall k :: Get(Pooling(ds), k) == Get(Pooling(ds'), k)
  {
    assert forall d :: d in ds <==> d in ds' by {
      forall d ensures d in ds <==> d in ds' {
        assert d in ds <==> d in multiset(ds);
        assert d in ds' <==> d in multiset(ds');
      }
    }
    assert forall i :: 0 <= i < |ds'| ==> Unique(ds'[i]) by {
      forall i | 0 <= i < |ds'| ensures Unique(ds'[i]) {
        assert ds'[i] in ds;
      }
    }
    SumOverPermutation(ds, ds', Mass);
    forall k ensures Get(Pooling(ds), k) == Get(Pooling(ds'), k) {
      SumOverPermutation(ds, ds', SampleMassOf(k));
      PoolingGet(ds, k);
      PoolingGet(ds', k);
      if InSomeSample(ds, k) {
        var i :| 0 <= i < |ds| && k in Keys(ds[i]);
        assert ds[i] in ds';
        var j :| 0 <= j < |ds'| && ds'[j] == ds[i];
      }
      if InSomeSample(ds', k) {
        var i :| 0 <= i < |ds'| && k in Keys(ds'[i]);
        assert ds'[i] in ds;
        var j :| 0 <= j < |ds| && ds[j] == ds'[i];
      }
    }
  }

  /** The linear probability of a looked-up log-probability. */
  function LinearOf(v: Option<LogProb>): Option<real> {
    match v
    case Some(p) => Some(Exp(p))
    case None => None
  }

  /** Pooling `n` copies of one distribution gives back its linear probabilities. */
  lemma PoolingCopies(d: seq<(string, LogProb)>, n: nat)
    requires Unique(d) && Mass(d) == 1.0 && n >= 1
    ensures forall k :: Get(Pooling(seq(n, _ => d)), k) == LinearOf(Get(d, k))
  {
    var ds := seq(n, _ => d);
    forall k ensures Get(Pooling(ds), k) == LinearOf(Get(d, k)) {
      PoolingGet(ds, k);
      SharesOfCopies(ds, d, k);
    }
  }

  /** The pooled share of label `k` over copies of one distribution. */
  lemma SharesOfCopies(ds: seq<seq<(string, LogProb)>>, d: seq<(string, LogProb)>, k: string)
    requires Unique(d) && Mass(d) == 1.0 && ds != [] && forall i :: 0 <= i < |ds| ==> ds[i] == d
    ensures GrandTotal(ds) == |ds| as real
    ensures InSomeSample(ds, k) <==> k in Keys(d)
    ensures k in Keys(d) ==> PooledMass(ds, k) / GrandTotal(ds) == Exp(Get(d, k).value)
  {
    var n := |ds| as real;
    var m := SampleMass(d, k);
    SumOverConstant(ds, d, Mass);
    SumOverConstant(ds, d, SampleMassOf(k));
    if k in Keys(d) {
      assert k in Keys(ds[0]);
      assert (n * m) / n == m;
    }
  }

  /**
   * The pooling loops of `run_one_item`: add up the linear probabilities over
   * all items of all samples, then divide every value by their sum.
   */
  method Pool(ds: seq<seq<(string, LogProb)>>) returns (probs: seq<(string, real)>)
    requires forall i :: 0 <= i < |ds| ==> Unique(ds[i])
    ensures probs == Pooling(ds)
    ensures Unique(probs)
    ensures forall k :: k in Keys(probs) <==> InSomeSample(ds, k)
    ensures probs != [] ==> GrandTotal(ds) > 0.0
    ensures forall j :: 0 <= j < |probs| ==> probs[j].1 == PooledMass(ds, probs[j].0) / GrandTotal(ds)
    ensures probs != [] ==> SumOver(probs, Value) == 1.0
  {
    var all := Flatten(ds);
    var acc := AddUpAll(all);
    AccumulatedFacts(all);
    probs := Renormalize(acc);
    PoolingMeaning(ds);
  }

  /** The first pooling loop: every item's linear probability added to its label's tally. */
  method AddUpAll(all: seq<(string, LogProb)>) returns (probs: seq<(string, real)>)
    ensures probs == Accumulated(all)
  {
    probs := [];
    var i := 0;
    while i < |all|
      invariant 0 <= i <= |all|
      invariant probs == Accumulated(all[..i])
    {
      var (k, v) := all[i];
      assert all[..i + 1][..i] == all[..i];
      probs := AddUp(probs, k, v);
      i := i + 1;
    }
    assert all[..i] == all;
  }

  /** The second pooling loop: every tally divided, in place, by the sum of all tallies. */
  method Renormalize(acc: seq<(string, real)>) returns (probs: seq<(string, real)>)
    requires forall j :: 0 <= j < |acc| ==> acc[j].1 > 0.0
    ensures acc != [] ==> SumOver(acc, Value) > 0.0
    ensures probs == Normalized(acc, SumOver(acc, Value))
  {
    if acc != [] {
      SumOverPositive(acc, Value);
    }
    var norm := SumOver(acc, Value);
    probs := acc;
    var j := 0;
    while j < |probs|
      invariant 0 <= j <= |probs| == |acc|
      invariant forall m :: 0 <= m < j ==> probs[m] == (acc[m].0, acc[m].1 / norm)
      invariant forall m :: j <= m < |probs| ==> probs[m] == acc[m]
    {
      probs := probs[j := (probs[j].0, probs[j].1 / norm)];
      j := j + 1;
    }
  }

  // ------------------------------------------------------ text and row layout

  /** `r.text.strip().split("\n")[0].strip()`: the completion's first line, trimmed. */
  function TrimCompletion(text: string): string {
    Strip(Split(Strip(text), '\n')[0])
  }

  /** The trimmed completion is a single line without surrounding whitespace, and trimming it again changes nothing. */
  lemma TrimCompletionFacts(text: string)
    ensures '\n' !in TrimCompletion(text)
    ensures IsStripped(TrimCompletion(text))
    ensures TrimCompletion(TrimCompletion(text)) == TrimCompletion(text)
  {
    var t := TrimCompletion(text);
    var line := Split(Strip(text), '\n')[0];
    assert '\n' !in line;
    StripAvoids(line, '\n');
    StripStripped(t);
    SplitWithout(t, '\n');
  }

  /** Python's `<` on strings: by code point, a proper prefix first. */
  predicate Below(a: string, b: string) {
    if a == [] then b != []
    else b != [] && (if a[0] != b[0] then a[0] < b[0] else Below(a[1..], b[1..]))
  }

  lemma {:induction false} BelowTotal(a: string, b: string)
    ensures a == b || Below(a, b) || Below(b, a)
    ensures !(Below(a, b) && Below(b, a))
    ensures !Below(a, a)
  {
    if a != [] && b != [] && a[0] == b[0] {
      BelowTotal(a[1..], b[1..]);
      assert a == [a[0]] + a[1..] && b == [b[0]] + b[1..];
    } else if a != [] {
      BelowTotal(a[1..], a[1..]);
    }
  }

  lemma {:induction false} BelowTransitive(a: string, b: string, c: string)
    requires Below(a, b) && Below(b, c)
    ensures Below(a, c)
  {
    if a != [] && a[0] == b[0] && b[0] == c[0] {
      BelowTransitive(a[1..], b[1..], c[1..]);
    }
  }

  /** Keys strictly ascending. */
  ghost predicate Ascending(s: seq<(string, real)>) {
    forall i, j :: 0 <= i < j < |s| ==> Below(s[i].0, s[j].0)
  }

  function Insert(e: (string, real), s: seq<(string, real)>): (r: seq<(string, real)>)
    ensures multiset(r) == multiset(s) + multiset{e}
    ensures |r| == |s| + 1
  {
    if s == [] || Below(e.0, s[0].0) then [e] + s
    else
      assert s == [s[0]] + s[1..];
      [s[0]] + Insert(e, s[1..])
  }

  lemma {:induction false} InsertAscending(e: (string, real), s: seq<(string, real)>)
    requires Ascending(s) && e.0 !in Keys(s)
    ensures Ascending(Insert(e, s))
  {
    var r := Insert(e, s);
    if s == [] {
    } else if Below(e.0, s[0].0) {
      forall j | 1 <= j < |r| ensures Below(e.0, r[j].0) {
        if j > 1 {
          BelowTransitive(e.0, s[0].0, s[j - 1].0);
        }
      }
    } else {
      assert e.0 != s[0].0;
      BelowTotal(e.0, s[0].0);
      assert Keys(s[1..]) == Keys(s)[1..];
      InsertAscending(e, s[1..]);
      var tail := Insert(e, s[1..]);
      forall j | 0 <= j < |tail| ensures Below(s[0].0, tail[j].0) {
        assert tail[j] in multiset(tail);
        if tail[j] != e {
          assert tail[j] in multiset(s[1..]);
          var m :| 0 <= m < |s[1..]| && s[1..][m] == tail[j];
          assert s[m + 1] == tail[j];
        }
      }
    }
  }

  /** `sorted(d.keys())` with each key's value: the entries by ascending key. */
  function SortedByKey(es: seq<(string, real)>): (r: seq<(string, real)>)
    ensures multiset(r) == multiset(es) && |r| == |es|
  {
    if es == [] then []
    else
      assert es == [es[0]] + es[1..];
      Insert(es[0], SortedByKey(es[1..]))
  }

  lemma {:induction false} SortedByKeyAscending(es: seq<(string, real)>)
    requires Unique(es)
    ensures Ascending(SortedByKey(es))
  {
    if es != [] {
      var rest := SortedByKey(es[1..]);
      SortedByKeyAscending(es[1..]);
      forall m | 0 <= m < |rest| ensures rest[m].0 != es[0].0 {
        assert rest[m] in multiset(es[1..]);
        var n :| 0 <= n < |es[1..]| && es[1..][n] == rest[m];
        assert es[n + 1] == rest[m];
      }
      InsertAscending(es[0], rest);
    }
  }

  /** The label/probability cells of an exported row: `[k, str(d[k])]` for each key in sorted order. */
  function ProbCells(sorted: seq<(string, real)>, render: real -> string): seq<string> {
    if sorted == [] then [] else [sorted[0].0, render(sorted[0].1)] + ProbCells(sorted[1..], render)
  }

  /** `bits = item + problist + texts[i]`, every cell rendered with `str` (`render` for floats). */
  function ExportRow(item: seq<string>, probs: seq<(string, real)>, texts: seq<string>, render: real -> string): seq<string> {
    item + ProbCells(SortedByKey(probs), render) + texts
  }

  lemma {:induction false} ProbCellsAt(sorted: seq<(string, real)>, render: real -> string)
    ensures |ProbCells(sorted, render)| == 2 * |sorted|
    ensures forall j :: 0 <= j < |sorted| ==>
      ProbCells(sorted, render)[2 * j] == sorted[j].0 && ProbCells(sorted, render)[2 * j + 1] == render(sorted[j].1)
  {
    if sorted != [] {
      ProbCellsAt(sorted[1..], render);
      var cells := ProbCells(sorted, render);
      forall j | 1 <= j < |sorted|
        ensures cells[2 * j] == sorted[j].0 && cells[2 * j + 1] == render(sorted[j].1)
      {
        assert cells[2 * j] == ProbCells(sorted[1..], render)[2 * (j - 1)];
        assert cells[2 * j + 1] == ProbCells(sorted[1..], render)[2 * (j - 1) + 1];
      }
    }
  }

  /**
   * The exported row is the item, then each label and its rendered
   * probability in ascending label order, then the completion texts.
   */
  lemma ExportLayout(item: seq<string>, probs: seq<(string, real)>, texts: seq<string>, render: real -> string)
    requires Unique(probs)
    ensures var sorted := SortedByKey(probs);
      var row := ExportRow(item, probs, texts, render);
      && multiset(sorted) == multiset(probs) && Ascending(sorted)
      && |row| == |item| + 2 * |probs| + |texts|
      && row[..|item|] == item && row[|item| + 2 * |probs|..] == texts
      && forall j :: 0 <= j < |probs| ==>
        row[|item| + 2 * j] == sorted[j].0 && row[|item| + 2 * j + 1] == render(sorted[j].1)
  {
    var sorted := SortedByKey(probs);
    SortedByKeyAscending(probs);
    ProbCellsAt(sorted, render);
    RowCellsAt(item, ProbCells(sorted, render), texts);
  }

  /** The cells of `item + cells + texts` in the middle are those of `cells`. */
  lemma RowCellsAt(item: seq<string>, cells: seq<string>, texts: seq<string>)
    ensures (item + cells + texts)[..|item|] == item
    ensures (item + cells + texts)[|item| + |cells|..] == texts
    ensures forall m :: 0 <= m < |cells| ==> (item + cells + texts)[|item| + m] == cells[m]
  {
  }

  // ------------------------------------------------------------ run_one_item

  /** The entries of each sample dict. */
  function EntriesOf(samples: seq<Dict<string, LogProb>>): seq<seq<(string, LogProb)>>
    reads samples
  {
    seq(|samples|, i requires 0 <= i < |samples| reads samples => samples[i].entries)
  }

  /**
   * `[addOther(d) for d in log_prob_dicts]`: stops at the first sample that
   * raises, whose position is `k`.
   */
  method AddOtherEach(samples: seq<Dict<string, LogProb>>) returns (r: Result<seq<Dict<string, LogProb>>>, ghost k: nat)
    requires forall i :: 0 <= i < |samples| ==> samples[i].Valid()
    requires forall i, j :: 0 <= i < j < |samples| ==> samples[i] != samples[j]
    modifies samples
    ensures forall i :: 0 <= i < |samples| ==> samples[i].Valid()
    ensures r.Ok? <==> forall i :: 0 <= i < |samples| ==> AddOtherResult(old(samples[i].entries)).Ok?
    ensures r.Ok? ==> r.value == samples && forall i :: 0 <= i < |samples| ==>
      samples[i].entries == AddOtherResult(old(samples[i].entries)).value
    ensures r.Err? ==> k < |samples| && AddOtherResult(old(samples[k].entries)) == Err(r.failure)
    ensures r.Err? ==> samples[k].entries == AddOtherLeaves(old(samples[k].entries))
    ensures r.Err? ==> forall j :: 0 <= j < k ==>
      AddOtherResult(old(samples[j].entries)).Ok? &&
      samples[j].entries == AddOtherResult(old(samples[j].entries)).value
    ensures r.Err? ==> forall j :: k < j < |samples| ==> samples[j].entries == old(samples[j].entries)
  {
    var i := 0;
    k := 0;
    while i < |samples|
      invariant 0 <= i <= |samples|
      invariant forall j :: 0 <= j < |samples| ==> samples[j].Valid()
      invariant forall j :: 0 <= j < i ==>
        AddOtherResult(old(samples[j].entries)).Ok? &&
        samples[j].entries == AddOtherResult(old(samples[j].entries)).value
      invariant forall j :: i <= j < |samples| ==> samples[j].entries == old(samples[j].entries)
    {
      ghost var e := samples[i].entries;
      assert e == old(samples[i].entries);
      var res := AddOther(samples[i]);
      if res.Err? {
        assert AddOtherResult(e) == Err(res.failure);
        assert samples[i].entries == AddOtherLeaves(e);
        return Err(res.failure), i;
      }
      i := i + 1;
    }
    return Ok(samples), k;
  }

  /** `[stripKeys(d) for d in log_prob_dicts]` */
  method StripKeysEach(samples: seq<Dict<string, LogProb>>) returns (r: seq<Dict<string, LogProb>>)
    requires forall i :: 0 <= i < |samples| ==> samples[i].Valid()
    requires forall i, j :: 0 <= i < j < |samples| ==> samples[i] != samples[j]
    modifies samples
    ensures r == samples
    ensures forall i :: 0 <= i < |samples| ==> samples[i].Valid() && samples[i].entries == Stripped(old(samples[i].entries))
  {
    ghost var before := EntriesOf(samples);
    var i := 0;
    while i < |samples|
      invariant 0 <= i <= |samples|
      invariant forall j :: 0 <= j < |samples| ==> samples[j].Valid()
      invariant forall j :: 0 <= j < i ==> samples[j].entries == Stripped(before[j])
      invariant forall j :: i <= j < |samples| ==> samples[j].entries == before[j]
    {
      var _ := StripKeys(samples[i]);
      i := i + 1;
    }
    return samples;
  }

  /**
   * `run_one_item` from the model's answers on: trim each completion text,
   * add `OTHER` to every sample, clean every sample's keys, then pool.
   */
  method RunOneItem(texts: seq<string>, samples: seq<Dict<string, LogProb>>)
    returns (r: Result<(seq<(string, real)>, seq<string>)>, ghost k: nat)
    requires forall i :: 0 <= i < |samples| ==> samples[i].Valid()
    requires forall i, j :: 0 <= i < j < |samples| ==> samples[i] != samples[j]
    modifies samples
    ensures forall i :: 0 <= i < |samples| ==> samples[i].Valid()
    ensures r.Ok? <==> forall i :: 0 <= i < |samples| ==> AddOtherResult(old(samples[i].entries)).Ok?
    ensures r.Ok? ==> forall i :: 0 <= i < |samples| ==>
      samples[i].entries == Stripped(AddOtherResult(old(samples[i].entries)).value)
    ensures r.Ok? ==> r.value.0 == Pooling(EntriesOf(samples))
    ensures r.Ok? ==> r.value.1 == seq(|texts|, i requires 0 <= i < |texts| => TrimCompletion(texts[i]))
    ensures r.Err? ==> k < |samples| && AddOtherResult(old(samples[k].entries)) == Err(r.failure)
    ensures r.Err? ==> samples[k].entries == AddOtherLeaves(old(samples[k].entries))
    ensures r.Err? ==> forall j :: 0 <= j < k ==>
      AddOtherResult(old(samples[j].entries)).Ok? &&
      samples[j].entries == AddOtherResult(old(samples[j].entries)).value
    ensures r.Err? ==> forall j :: k < j < |samples| ==> samples[j].entries == old(samples[j].entries)
  {
    var trimmed := seq(|texts|, i requires 0 <= i < |texts| => TrimCompletion(texts[i]));
    var added;
    added, k := AddOtherEach(samples);
    if added.Err? {
      return Err(added.failure), k;
    }
    var cleaned := StripKeysEach(samples);
    var probs := Pool(EntriesOf(cleaned));
    return Ok((probs, trimmed)), k;
  }
}
