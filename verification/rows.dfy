/** Row records and their generation, as in `src/utils.ts`: `fill`, and
    `newItem(i)` whose id is the decimal form of `i + 1`. The description and
    price of a row are drawn from `Math.random` in the source; here they are
    supplied by the caller as a `Detail`. */
module Rows {

  import JsArray

  /** The randomly generated part of a row. */
  datatype Detail = Detail(description: string, price: string)

  /** An immutable row record; `id` is the rendering key. */
  datatype Row = Row(id: string, description: string, price: string)

  predicate IsDigit(c: char) {
    '0' <= c <= '9'
  }

  function DigitChar(d: nat): (c: char)
    requires d < 10
    ensures IsDigit(c)
    ensures c as int - '0' as int == d
  {
    "0123456789"[d]
  }

  /** `String(n)` for a natural number: its decimal digits, most significant
      first, without leading zeros. */
  function Decimal(n: nat): (s: string)
    ensures 1 <= |s|
    ensures forall k :: 0 <= k < |s| ==> IsDigit(s[k])
    ensures n > 0 ==> s[0] != '0'
    decreases n
  {
    if n < 10 then [DigitChar(n)] else Decimal(n / 10) + [DigitChar(n % 10)]
  }

  /** Reads a string of decimal digits back as a number (the inverse of
      `Decimal`, used to state what an id means). */
  function ParseDecimal(s: string): nat
    requires forall k :: 0 <= k < |s| ==> IsDigit(s[k])
  {
    if |s| == 0 then 0
    else
      assert IsDigit(s[|s| - 1]);
      ParseDecimal(s[..|s| - 1]) * 10 + (s[|s| - 1] as int - '0' as int)
  }

  /** Round trip: the decimal form of `n` reads back as `n`. */
  lemma {:induction false} ParseDecimalOfDecimal(n: nat)
    ensures ParseDecimal(Decimal(n)) == n
    decreases n
  {
    var s := Decimal(n);
    if n >= 10 {
      ParseDecimalOfDecimal(n / 10);
      assert s[..|s| - 1] == Decimal(n / 10);
    }
  }

  /** Distinct numbers have distinct decimal forms. */
  lemma DecimalInjective(m: nat, n: nat)
    requires m != n
    ensures Decimal(m) != Decimal(n)
  {
    ParseDecimalOfDecimal(m);
    ParseDecimalOfDecimal(n);
  }

  /** `newItem(i)`: a row whose id is `String(i + 1)`, so that ids start at 1. */
  function NewItem(i: nat, detail: Detail): (r: Row)
    ensures forall k :: 0 <= k < |r.id| ==> IsDigit(r.id[k])
    ensures ParseDecimal(r.id) == i + 1
    ensures r.id == Decimal(i + 1)
    ensures r.description == detail.description && r.price == detail.price
  {
    ParseDecimalOfDecimal(i + 1);
    Row(Decimal(i + 1), detail.description, detail.price)
  }

  /** The first row ever generated has id "1". */
  lemma FirstIdIsOne(detail: Detail)
    ensures NewItem(0, detail).id == "1"
  {
  }

  /** `newItem` never gives two positions the same id. */
  lemma NewItemInjective(i: nat, j: nat, a: Detail, b: Detail)
    requires i != j
    ensures NewItem(i, a).id != NewItem(j, b).id
  {
    DecimalInjective(i + 1, j + 1);
  }

  /** Row k (0-based) of a row source carries id k + 1. */
  ghost predicate SequentialIds(rows: seq<Row>) {
    forall k :: 0 <= k < |rows| ==> rows[k].id == Decimal(k + 1)
  }

  /** The ids `String(first)`, `String(first + 1)`, ... of `count` rows in a
      row. */
  function IdRun(first: nat, count: nat): (ids: seq<string>)
    ensures |ids| == count
    ensures forall k :: 0 <= k < count ==> ids[k] == Decimal(k + first)
  {
    seq(count, k requires 0 <= k < count => Decimal(k + first))
  }

  /** Sequential ids are pairwise distinct, so they are valid rendering keys. */
  lemma SequentialIdsDistinct(rows: seq<Row>, i: int, j: int)
    requires SequentialIds(rows)
    requires 0 <= i < |rows| && 0 <= j < |rows| && i != j
    ensures rows[i].id != rows[j].id
  {
    DecimalInjective(i + 1, j + 1);
  }

  /** `fill(n).map((_, i) => newItem(i))`: n rows with ids "1" .. String(n),
      in order; `noise` supplies the random part of row i. */
  function Generate(n: nat, noise: nat -> Detail): (rows: seq<Row>)
    ensures |rows| == n
    ensures SequentialIds(rows)
    ensures forall k :: 0 <= k < n ==> ParseDecimal(rows[k].id) == k + 1
  {
    var zeros := JsArray.Fill(n, 0);
    var rows := seq(|zeros|, i requires 0 <= i < |zeros| => NewItem(i, noise(i)));
    assert forall k :: 0 <= k < n ==> rows[k] == NewItem(k, noise(k));
    rows
  }
}
