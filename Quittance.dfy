/**
 * The PDF file name of a rent receipt (src/components/QuittanceEditor.tsx),
 * built the same way for the uploaded file and for the local download:
 * `quittance-<locataire>-<periode>.pdf` with every whitespace character of
 * both fields replaced by `_`.
 */
module Quittance {

  /** The characters `\s` matches in a JavaScript regular expression. */
  predicate IsJsWhitespace(c: char) {
    || c == '\t' || c == '\n' || c == '\U{000B}' || c == '\U{000C}' || c == '\r' || c == ' '
    || c == '\U{00A0}' || c == '\U{1680}' || ('\U{2000}' <= c <= '\U{200A}')
    || c == '\U{2028}' || c == '\U{2029}' || c == '\U{202F}' || c == '\U{205F}'
    || c == '\U{3000}' || c == '\U{FEFF}'
  }

  /** What `/\s/g` replaced by `_` does to one character. */
  function UnderscoreChar(c: char): char {
    if IsJsWhitespace(c) then '_' else c
  }

  /** `s.replace(/\s/g, "_")`. */
  function Underscored(s: string): (r: string)
    ensures |r| == |s|
    ensures forall k :: 0 <= k < |s| ==> r[k] == UnderscoreChar(s[k])
  {
    if |s| == 0 then []
    else [UnderscoreChar(s[0])] + Underscored(s[1..])
  }

  /** The receipt data the name is built from. */
  datatype Receipt = Receipt(locataire: string, periode: string)

  /** The file name used at both places. */
  function FileName(data: Receipt): string {
    "quittance-" + Underscored(data.locataire) + "-" + Underscored(data.periode) + ".pdf"
  }

  /**
   * The name starts with "quittance-", ends with ".pdf", and between them holds
   * the underscored tenant, a `-` and the underscored period.
   */
  lemma FileNameShape(data: Receipt)
    ensures var name := FileName(data);
      && |name| == |data.locataire| + |data.periode| + 15
      && name[..10] == "quittance-" && name[|name| - 4..] == ".pdf"
      && name[10..10 + |data.locataire|] == Underscored(data.locataire)
      && name[10 + |data.locataire|] == '-'
      && name[11 + |data.locataire|..|name| - 4] == Underscored(data.periode)
  {
    var l, p := Underscored(data.locataire), Underscored(data.periode);
    var name := "quittance-" + l + "-" + p + ".pdf";
    assert name[10..10 + |l|] == l;
    assert name[11 + |l|..|name| - 4] == p;
  }

  /** The substituted segments contain no whitespace, and a field without whitespace appears verbatim. */
  lemma SegmentFacts(s: string)
    ensures forall k :: 0 <= k < |Underscored(s)| ==> !IsJsWhitespace(Underscored(s)[k])
    ensures (forall k :: 0 <= k < |s| ==> !IsJsWhitespace(s[k])) ==> Underscored(s) == s
  {
  }

  /** Replacing is done character by character, so it distributes over concatenation. */
  lemma UnderscoredConcat(a: string, b: string)
    ensures Underscored(a + b) == Underscored(a) + Underscored(b)
  {
    var l, r := Underscored(a + b), Underscored(a) + Underscored(b);
    forall k | 0 <= k < |l| ensures l[k] == r[k] {
      if k < |a| {
        assert (a + b)[k] == a[k];
      } else {
        assert (a + b)[k] == b[k - |a|];
      }
    }
  }

  /** A field and its underscored form give the same name ("Alice Martin" and "Alice_Martin"). */
  lemma UnderscoredFieldsCollide(locataire: string, periode: string)
    ensures FileName(Receipt(locataire, periode)) == FileName(Receipt(Underscored(locataire), periode))
  {
    assert Underscored(Underscored(locataire)) == Underscored(locataire);
  }

  lemma DashUnchanged()
    ensures Underscored("-") == "-"
  {
    assert "-"[1..] == [];
  }

  /** A `-` between two parts passes through the replacement unchanged. */
  lemma UnderscoredAroundDash(a: string, b: string)
    ensures Underscored(a + "-" + b) == Underscored(a) + "-" + Underscored(b)
  {
    DashUnchanged();
    UnderscoredConcat(a, "-");
    UnderscoredConcat(a + "-", b);
  }

  /** A `-` inside a field cannot be told from the separator ("A-B", "C" and "A", "B-C"). */
  lemma SeparatorInFieldCollides(left: string, right: string, periode: string)
    ensures FileName(Receipt(left + "-" + right, periode)) == FileName(Receipt(left, right + "-" + periode))
  {
    UnderscoredAroundDash(left, right);
    UnderscoredAroundDash(right, periode);
    Regroup("quittance-", Underscored(left), "-", Underscored(right), Underscored(periode), ".pdf");
  }

  lemma Regroup(q: string, l: string, d: string, r: string, p: string, e: string)
    ensures q + (l + d + r) + d + p + e == q + l + d + (r + d + p) + e
  {
  }
}
