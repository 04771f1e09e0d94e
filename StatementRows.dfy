/**
 * Turning a CSV row into an `Operation`, as the two readers do
 * (scripts/bankReconciliation.ts and src/components/RapprochementBancaire.tsx):
 * date and label are copied, the amount text has its FIRST comma turned into
 * a dot (`replace(',', '.')` with a string pattern replaces one occurrence) and
 * is then handed to `parseFloat`, which is a parameter of the model.
 */
module StatementRows {
  import opened Wrappers
  import opened JsNumbers
  import opened Sequences
  import Reconciliation

  /**
   * `s.replace(from, to)` for a one-character string pattern: the first
   * occurrence, if any, is the only character that changes.
   */
  function ReplaceFirst(s: string, from: char, to: char): (r: string)
    ensures |r| == |s|
    ensures forall k :: 0 <= k < |s| ==> r[k] == if k == IndexOf(s, from) then to else s[k]
  {
    var i := IndexOf(s, from);
    if i == -1 then s else s[..i] + [to] + s[i + 1..]
  }

  /** The amount-text normalisation: the first `,` becomes `.`. */
  function NormaliseAmountText(text: string): string {
    ReplaceFirst(text, ',', '.')
  }

  /** Exactly one `from` disappears when there is one, replaced by one `to`; every later `from` is kept. */
  lemma ReplaceFirstCounts(s: string, from: char, to: char)
    requires from != to
    ensures multiset(ReplaceFirst(s, from, to))[from] == if from in s then multiset(s)[from] - 1 else 0
    ensures multiset(ReplaceFirst(s, from, to))[to] == if from in s then multiset(s)[to] + 1 else multiset(s)[to]
  {
    var i := IndexOf(s, from);
    if i != -1 {
      var a, b := s[..i], s[i + 1..];
      assert multiset(ReplaceFirst(s, from, to)) == multiset(a + [to] + b) by {
        assert ReplaceFirst(s, from, to) == a + [to] + b;
      }
      assert multiset(s) == multiset(a + [from] + b) by {
        assert s == a + [from] + b;
      }
      SwapCounts(a, b, from, to);
    } else {
      assert ReplaceFirst(s, from, to) == s;
    }
  }

  lemma SwapCounts(a: string, b: string, from: char, to: char)
    requires from != to
    ensures multiset(a + [to] + b)[from] == multiset(a + [from] + b)[from] - 1
    ensures multiset(a + [to] + b)[to] == multiset(a + [from] + b)[to] + 1
  {
  }

  /** The locale amount "1234,56" normalises to "1234.56". */
  lemma DecimalCommaExample()
    ensures NormaliseAmountText("1234,56") == "1234.56"
  {
    var s := "1234,56";
    assert IndexOf(s, ',') == 4 by { IndexOfFirst(s, ',', 4); }
  }

  /** In "1,234,56" only the first comma becomes a dot. */
  lemma LaterCommasKeptExample()
    ensures NormaliseAmountText("1,234,56") == "1.234,56"
  {
    var s := "1,234,56";
    assert IndexOf(s, ',') == 1 by { IndexOfFirst(s, ',', 1); }
  }

  /** A row of the file-stream reader: `csv-parse` with `columns: true` yields every column as text. */
  datatype CsvRecord = CsvRecord(date: string, description: string, amount: string)

  /** A row of the upload reader: `Papa.parse` with `header: true` may leave `amount` undefined. */
  datatype UploadRow = UploadRow(date: string, description: string, amount: Option<string>)

  /** The record mapping of `readCSV`. */
  function OperationFromRecord(row: CsvRecord, parseFloat: string -> Num): (op: Reconciliation.Operation)
    ensures op.date == row.date && op.description == row.description
    ensures op.amount == parseFloat(ReplaceFirst(row.amount, ',', '.'))
  {
    Reconciliation.Operation(row.date, row.description, parseFloat(NormaliseAmountText(row.amount)))
  }

  /** The row mapping of `parseCSV`: a missing amount is read as `''`. */
  function OperationFromRow(row: UploadRow, parseFloat: string -> Num): (op: Reconciliation.Operation)
    ensures op.date == row.date && op.description == row.description
    ensures row.amount.None? ==> op.amount == parseFloat("")
    ensures row.amount.Some? ==> op.amount == parseFloat(ReplaceFirst(row.amount.value, ',', '.'))
  {
    Reconciliation.Operation(row.date, row.description, parseFloat(NormaliseAmountText(row.amount.GetOr(""))))
  }

  /** `parseCSV` maps every row, in order. */
  function OperationsFromRows(rows: seq<UploadRow>, parseFloat: string -> Num): (ops: seq<Reconciliation.Operation>)
    ensures |ops| == |rows|
    ensures forall k :: 0 <= k < |rows| ==> ops[k].date == rows[k].date && ops[k].description == rows[k].description
    ensures forall k :: 0 <= k < |rows| && rows[k].amount.None? ==> ops[k].amount == parseFloat("")
    ensures forall k :: 0 <= k < |rows| && rows[k].amount.Some? ==>
      ops[k].amount == parseFloat(ReplaceFirst(rows[k].amount.value, ',', '.'))
  {
    seq(|rows|, k requires 0 <= k < |rows| => OperationFromRow(rows[k], parseFloat))
  }

  /**
   * A row without an amount becomes a NaN operation (`parseFloat('')` is NaN),
   * and such a bank row can never be matched, whatever the accounting side holds.
   */
  lemma MissingAmountNeverMatches(rows: seq<UploadRow>, accountingOps: seq<Reconciliation.Operation>,
                                  parseFloat: string -> Num, k: nat)
    requires parseFloat("") == NaN
    requires k < |rows| && rows[k].amount == None
    ensures OperationsFromRows(rows, parseFloat)[k].amount == NaN
    ensures !Reconciliation.Hits(OperationsFromRows(rows, parseFloat), accountingOps)[k]
  {
    Reconciliation.NaNNeverMatches(OperationsFromRows(rows, parseFloat), accountingOps);
  }
}
