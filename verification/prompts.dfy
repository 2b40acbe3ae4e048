/**
 * Turning sentence stubs into prompt variants: every stub yields one row per
 * city, with the placeholder `QQQ` replaced by the city, the condition letter
 * and the country label attached. The sixth, neutral city is `QQQ` itself.
 */
module Prompts {
  import opened Text

  const CITIES: seq<string> := ["Tokyo", "London", "New York", "Mexico City", "Mumbai", "QQQ"]
  const COUNTRY_LABELS: seq<string> := ["Japan", "UK", "US", "Mexico", "India", "Neutral"]
  const LETTERS: string := "ABCDEF"
  const PLACEHOLDER: string := "QQQ"

  /** The position of the neutral (reference) variant. */
  const NEUTRAL: nat := 5

  /** One output row: stub index, condition letter, prompt text, country label. */
  datatype PromptRow = PromptRow(stub: nat, letter: char, prompt: string, country: string)

  /** The row for stub number `s` and city number `c`. */
  function Variant(stub: string, s: nat, c: nat): PromptRow
    requires c < |CITIES|
  {
    PromptRow(s, LETTERS[c], Replace(stub, PLACEHOLDER, CITIES[c]), COUNTRY_LABELS[c])
  }

  /** The six rows of one stub, in city order. */
  function VariantsOf(stub: string, s: nat): seq<PromptRow> {
    seq(|CITIES|, c requires 0 <= c < |CITIES| => Variant(stub, s, c))
  }

  /** The rows of all stubs, stub by stub. */
  function Variants(stubs: seq<string>): seq<PromptRow> {
    if stubs == [] then []
    else Variants(stubs[..|stubs| - 1]) + VariantsOf(stubs[|stubs| - 1], |stubs| - 1)
  }

  /** The four fields of a row, each as `str` renders it. */
  function Fields(row: PromptRow): seq<string> {
    [NatToString(row.stub), [row.letter], row.prompt, row.country]
  }

  /** The printed line: the fields joined by tabs. */
  function Line(row: PromptRow): string {
    Join(Fields(row), '\t')
  }

  /** The program's output for the lines of its input file: stubs are stripped before use. */
  function Output(lines: seq<string>): seq<string> {
    var rows := Variants(seq(|lines|, i requires 0 <= i < |lines| => Strip(lines[i])));
    seq(|rows|, i requires 0 <= i < |rows| => Line(rows[i]))
  }

  /** Six rows per stub, stub-major, city-minor. */
  lemma {:induction false} VariantsLayout(stubs: seq<string>)
    ensures |Variants(stubs)| == 6 * |stubs|
    ensures forall i :: 0 <= i < |Variants(stubs)| ==>
      Variants(stubs)[i] == Variant(stubs[i / 6], i / 6, i % 6)
  {
    if stubs != [] {
      var n := |stubs| - 1;
      var front := stubs[..n];
      VariantsLayout(front);
      var rows := Variants(stubs);
      forall i | 0 <= i < |rows|
        ensures rows[i] == Variant(stubs[i / 6], i / 6, i % 6)
      {
        if i < 6 * n {
          assert rows[i] == Variants(front)[i];
          assert front[i / 6] == stubs[i / 6];
        } else {
          assert i / 6 == n;
          assert rows[i] == VariantsOf(stubs[n], n)[i - 6 * n];
        }
      }
    }
  }

  /** Row `i` of the rows: its stub index, letter and label. */
  lemma RowFields(stubs: seq<string>, i: nat)
    requires i < 6 * |stubs|
    ensures |Variants(stubs)| == 6 * |stubs|
    ensures Variants(stubs)[i].stub == i / 6
    ensures Variants(stubs)[i].letter == LETTERS[i % 6]
    ensures Variants(stubs)[i].country == COUNTRY_LABELS[i % 6]
    ensures Variants(stubs)[i].prompt == Replace(stubs[i / 6], PLACEHOLDER, CITIES[i % 6])
  {
    VariantsLayout(stubs);
  }

  /** The neutral row's prompt is the stub itself, since `QQQ` is replaced by `QQQ`. */
  lemma NeutralPromptIsStub(stub: string, s: nat)
    ensures Variant(stub, s, NEUTRAL).prompt == stub
    ensures Variant(stub, s, NEUTRAL).letter == 'F'
  {
    ReplaceBySelf(stub, PLACEHOLDER);
  }

  /** A stub without the placeholder yields six identical prompts. */
  lemma PromptsWithoutPlaceholder(stub: string, s: nat)
    requires !Occurs(PLACEHOLDER, stub)
    ensures forall c :: 0 <= c < |CITIES| ==> Variant(stub, s, c).prompt == stub
  {
    forall c | 0 <= c < |CITIES| ensures Variant(stub, s, c).prompt == stub {
      ReplaceAbsent(stub, PLACEHOLDER, CITIES[c]);
    }
  }

  /** A printed line of a tab-free stub splits back into the row's four fields. */
  lemma LineSplitsIntoFields(stub: string, s: nat, c: nat)
    requires c < |CITIES| && '\t' !in stub
    ensures Split(Line(Variant(stub, s, c)), '\t') == Fields(Variant(stub, s, c))
  {
    var row := Variant(stub, s, c);
    assert '\t' !in CITIES[c] && '\t' !in COUNTRY_LABELS[c];
    ReplaceAvoids(stub, PLACEHOLDER, CITIES[c], '\t');
    assert '\t' !in NatToString(s);
    SplitJoin(Fields(row), '\t');
  }

  /**
   * Rows for different (stub, city) pairs never share both their first field
   * and their letter, so grouping the printed rows by those two fields keeps
   * them all apart: different stub numbers print as different indices, and
   * one stub's rows carry different letters.
   */
  lemma RowKeysDistinct(x: string, y: string, s: nat, t: nat, c: nat, d: nat)
    requires c < |CITIES| && d < |CITIES| && (s != t || c != d)
    ensures Fields(Variant(x, s, c))[..2] != Fields(Variant(y, t, d))[..2]
  {
    var a, b := Fields(Variant(x, s, c)), Fields(Variant(y, t, d));
    if s != t {
      DecimalRoundTrip(s);
      DecimalRoundTrip(t);
      assert a[..2][0] != b[..2][0];
    } else {
      assert a[..2][1] != b[..2][1];
    }
  }

  /** Line `i` of the output is the variant of the stripped stub `i / 6` for city `i % 6`. */
  lemma OutputLayout(lines: seq<string>)
    ensures |Output(lines)| == 6 * |lines|
    ensures forall i :: 0 <= i < 6 * |lines| ==>
      Output(lines)[i] == Line(Variant(Strip(lines[i / 6]), i / 6, i % 6))
  {
    var stubs := seq(|lines|, i requires 0 <= i < |lines| => Strip(lines[i]));
    VariantsLayout(stubs);
  }
}
