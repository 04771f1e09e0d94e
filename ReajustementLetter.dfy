/**
 * The rent-revision letter editor of src/components/ReajustementLetterEditor.tsx:
 * placeholder substitution in the letter template (`getLetterHtml`), the
 * date-format guard of the lease-start handler and the guard of the rent
 * recalculation. The date arithmetic, the rent arithmetic and `Number`'s
 * `toString` are parameters of the model.
 */
module ReajustementLetter {
  import opened Wrappers
  import opened JsNumbers

  // ---------------------------------------------------------------------------
  // Global literal replacement: `s.replace(/pattern/g, value)`

  /** `pat` occurs in `s` at position `i`. */
  predicate OccursAt(s: string, pat: string, i: nat) {
    i + |pat| <= |s| && forall k :: 0 <= k < |pat| ==> s[i + k] == pat[k]
  }

  predicate Contains(s: string, pat: string) {
    exists i: nat | i + |pat| <= |s| :: OccursAt(s, pat, i)
  }

  /**
   * Replaces every occurrence of `pat`, scanning left to right and resuming
   * after each replaced occurrence, as a global regular expression without
   * special characters does. The value is inserted literally.
   */
  function ReplaceAll(s: string, pat: string, value: string): string
    requires |pat| > 0
    decreases |s|
  {
    if |s| < |pat| then s
    else if OccursAt(s, pat, 0) then value + ReplaceAll(s[|pat|..], pat, value)
    else [s[0]] + ReplaceAll(s[1..], pat, value)
  }

  /** An occurrence one position further in `s` is an occurrence in `s[1..]`. */
  lemma OccursShift(s: string, pat: string, j: nat)
    requires |s| > 0
    ensures OccursAt(s, pat, j + 1) <==> OccursAt(s[1..], pat, j)
  {
    if j + 1 + |pat| <= |s| {
      assert s[1..][j..j + |pat|] == s[j + 1..j + 1 + |pat|];
    }
  }

  /** A leftmost occurrence at `i > 0` is a leftmost occurrence at `i - 1` of `s[1..]`. */
  lemma FirstOccurrenceShift(s: string, pat: string, i: nat)
    requires 0 < i && OccursAt(s, pat, i)
    requires forall j: nat :: j < i ==> !OccursAt(s, pat, j)
    ensures |s| >= |pat| && !OccursAt(s, pat, 0)
    ensures OccursAt(s[1..], pat, i - 1)
    ensures forall j: nat :: j < i - 1 ==> !OccursAt(s[1..], pat, j)
  {
    assert !OccursAt(s, pat, 0);
    OccursShift(s, pat, i - 1);
    forall j: nat | j < i - 1 ensures !OccursAt(s[1..], pat, j) {
      OccursShift(s, pat, j);
    }
  }

  /** Without an occurrence at the start, the first character is kept and the scan moves on. */
  lemma ReplaceAllSkip(s: string, pat: string, value: string)
    requires |pat| > 0 && |s| >= |pat| && !OccursAt(s, pat, 0)
    ensures ReplaceAll(s, pat, value) == [s[0]] + ReplaceAll(s[1..], pat, value)
  {
  }

  /** A text without the pattern comes back unchanged. */
  lemma {:induction false} ReplaceAllWithoutOccurrence(s: string, pat: string, value: string)
    requires |pat| > 0 && !Contains(s, pat)
    ensures ReplaceAll(s, pat, value) == s
    decreases |s|
  {
    if |s| >= |pat| {
      assert !OccursAt(s, pat, 0);
      ReplaceAllSkip(s, pat, value);
      forall i: nat ensures !OccursAt(s[1..], pat, i) {
        OccursShift(s, pat, i);
      }
      ReplaceAllWithoutOccurrence(s[1..], pat, value);
      assert s == [s[0]] + s[1..];
    }
  }

  /**
   * At the leftmost occurrence `i` the pattern is replaced by the value, the text
   * before it is kept and the scan resumes right after the occurrence.
   */
  lemma {:induction false} ReplaceAllAtFirstOccurrence(s: string, pat: string, value: string, i: nat)
    requires |pat| > 0 && OccursAt(s, pat, i)
    requires forall j: nat :: j < i ==> !OccursAt(s, pat, j)
    ensures ReplaceAll(s, pat, value) == s[..i] + value + ReplaceAll(s[i + |pat|..], pat, value)
    decreases i
  {
    if i == 0 {
      assert s[..0] == [];
    } else {
      assert ReplaceAll(s[1..], pat, value)
          == s[1..][..i - 1] + value + ReplaceAll(s[1..][i - 1 + |pat|..], pat, value) by {
        FirstOccurrenceShift(s, pat, i);
        ReplaceAllAtFirstOccurrence(s[1..], pat, value, i - 1);
      }
      assert !OccursAt(s, pat, 0);
      ReplaceAllShiftBack(s, pat, value, i);
    }
  }

  /** The inductive step: a result for `s[1..]` at `i - 1` carries over to `s` at `i`. */
  lemma ReplaceAllShiftBack(s: string, pat: string, value: string, i: nat)
    requires |pat| > 0 && 0 < i && i + |pat| <= |s| && !OccursAt(s, pat, 0)
    requires ReplaceAll(s[1..], pat, value) == s[1..][..i - 1] + value + ReplaceAll(s[1..][i - 1 + |pat|..], pat, value)
    ensures ReplaceAll(s, pat, value) == s[..i] + value + ReplaceAll(s[i + |pat|..], pat, value)
  {
    var t := s[1..];
    ReplaceAllSkip(s, pat, value);
    assert t[i - 1 + |pat|..] == s[i + |pat|..];
    var rest := ReplaceAll(s[i + |pat|..], pat, value);
    calc {
      ReplaceAll(s, pat, value);
      [s[0]] + (t[..i - 1] + value + rest);
      ([s[0]] + t[..i - 1]) + value + rest;
      { assert s[..i] == [s[0]] + t[..i - 1]; }
      s[..i] + value + rest;
    }
  }

  /** Replacing a pattern in the pattern itself yields the value. */
  lemma ReplaceAllOfPattern(pat: string, value: string)
    requires |pat| > 0
    ensures ReplaceAll(pat, pat, value) == value
  {
    assert pat[|pat|..] == [];
    assert ReplaceAll([], pat, value) == [];
  }

  /** Replacing a pattern by itself changes nothing. */
  lemma {:induction false} ReplaceAllIdentity(s: string, pat: string)
    requires |pat| > 0
    ensures ReplaceAll(s, pat, pat) == s
    decreases |s|
  {
    if |s| >= |pat| {
      if s[..|pat|] == pat {
        ReplaceAllIdentity(s[|pat|..], pat);
        assert s == s[..|pat|] + s[|pat|..];
      } else {
        ReplaceAllIdentity(s[1..], pat);
        assert s == [s[0]] + s[1..];
      }
    }
  }

  // ---------------------------------------------------------------------------
  // The letter

  /** The letter template the editor starts with. */
  const DefaultTemplate: string :=
    "\n<p>Objet : Révision annuelle du loyer</p>\n"
    + "<p>Madame, Monsieur {{nom}},</p>\n"
    + "<p>Conformément à la clause de révision annuelle prévue au contrat de location pour le bien situé au {{adresse_bien}}, "
    + "nous vous informons que le loyer sera réajusté à compter du {{date_plus_un_an}}.</p>\n"
    + "<p>Loyer initial : <b>{{loyer_initial}} €</b><br />\n"
    + "IRL à la date de début du bail ({{date_debut}}) : <b>{{irl_t}}</b><br />\n"
    + "IRL à la date anniversaire ({{date_plus_un_an}}) : <b>{{irl_t1}}</b><br />\n"
    + "Nouveau loyer : <b>{{loyer_nouveau}} €</b></p>\n"
    + "<p>Nous restons à votre disposition pour toute question.</p>\n"
    + "<p>Cordialement,<br />La Gestion Immobilière</p>\n"

  const Nom := "{{nom}}"
  const AdresseBien := "{{adresse_bien}}"
  const DateDebut := "{{date_debut}}"
  const DatePlusUnAn := "{{date_plus_un_an}}"
  const IrlT := "{{irl_t}}"
  const IrlT1 := "{{irl_t1}}"
  const LoyerInitial := "{{loyer_initial}}"
  const LoyerNouveau := "{{loyer_nouveau}}"

  /** The eight placeholders, in the order `getLetterHtml` replaces them. */
  const Placeholders: seq<string> :=
    [Nom, AdresseBien, DateDebut, DatePlusUnAn, IrlT, IrlT1, LoyerInitial, LoyerNouveau]

  /** One `replace` pass per (pattern, value) pair, in order. */
  function Substitute(template: string, passes: seq<(string, string)>): string
    requires forall k :: 0 <= k < |passes| ==> |passes[k].0| > 0
    decreases |passes|
  {
    if |passes| == 0 then template
    else Substitute(ReplaceAll(template, passes[0].0, passes[0].1), passes[1..])
  }

  /** The passes of `getLetterHtml`: placeholder `k` is replaced by value `k`. */
  function LetterPasses(values: seq<string>): (passes: seq<(string, string)>)
    requires |values| == |Placeholders|
    ensures |passes| == |Placeholders|
    ensures forall k :: 0 <= k < |passes| ==> passes[k] == (Placeholders[k], values[k]) && |passes[k].0| > 0
  {
    seq(|Placeholders|, k requires 0 <= k < |Placeholders| => (Placeholders[k], values[k]))
  }

  /** The passes from `i` on: pass `i`, then the rest. */
  lemma SubstituteStep(template: string, passes: seq<(string, string)>, i: nat)
    requires i < |passes|
    requires forall k :: 0 <= k < |passes| ==> |passes[k].0| > 0
    ensures Substitute(template, passes[i..])
         == Substitute(ReplaceAll(template, passes[i].0, passes[i].1), passes[i + 1..])
  {
    assert passes[i..][0] == passes[i] && passes[i..][1..] == passes[i + 1..];
  }

  /** The passes of `getLetterHtml` are its chain of eight `replace` calls, in source order. */
  lemma SubstituteAsChain(template: string, values: seq<string>)
    requires |values| == |Placeholders|
    ensures Substitute(template, LetterPasses(values))
         == ReplaceAll(ReplaceAll(ReplaceAll(ReplaceAll(ReplaceAll(ReplaceAll(ReplaceAll(ReplaceAll(template,
              Nom, values[0]), AdresseBien, values[1]), DateDebut, values[2]), DatePlusUnAn, values[3]),
              IrlT, values[4]), IrlT1, values[5]), LoyerInitial, values[6]), LoyerNouveau, values[7])
  {
    var p := LetterPasses(values);
    var t1 := ReplaceAll(template, Nom, values[0]);
    var t2 := ReplaceAll(t1, AdresseBien, values[1]);
    var t3 := ReplaceAll(t2, DateDebut, values[2]);
    var t4 := ReplaceAll(t3, DatePlusUnAn, values[3]);
    var t5 := ReplaceAll(t4, IrlT, values[4]);
    var t6 := ReplaceAll(t5, IrlT1, values[5]);
    var t7 := ReplaceAll(t6, LoyerInitial, values[6]);
    var t8 := ReplaceAll(t7, LoyerNouveau, values[7]);
    assert p[0..] == p;
    SubstituteStep(template, p, 0);
    SubstituteStep(t1, p, 1);
    SubstituteStep(t2, p, 2);
    SubstituteStep(t3, p, 3);
    SubstituteStep(t4, p, 4);
    SubstituteStep(t5, p, 5);
    SubstituteStep(t6, p, 6);
    SubstituteStep(t7, p, 7);
    assert p[8..] == [];
  }

  /** A template in which no pass finds its pattern is returned unchanged. */
  lemma {:induction false} SubstituteWithoutPlaceholders(template: string, passes: seq<(string, string)>)
    requires forall k :: 0 <= k < |passes| ==> |passes[k].0| > 0 && !Contains(template, passes[k].0)
    ensures Substitute(template, passes) == template
  {
    if |passes| > 0 {
      ReplaceAllWithoutOccurrence(template, passes[0].0, passes[0].1);
      SubstituteWithoutPlaceholders(template, passes[1..]);
    }
  }

  /** How an index is displayed: `irl ? irl.toString() : ""`; null, 0 and NaN give "". */
  function IrlText(irl: Option<Num>, numberText: Num -> string): (text: string)
    ensures irl == None || irl == Some(Finite(0.0)) || irl == Some(NaN) ==> text == ""
    ensures irl.Some? && Truthy(irl.value) ==> text == numberText(irl.value)
  {
    if irl.Some? && Truthy(irl.value) then numberText(irl.value) else ""
  }

  /** The only "{{" of `s` is at its start. */
  predicate BracesOnlyAtStart(s: string) {
    forall j :: 1 <= j < |s| - 1 ==> !(s[j] == '{' && s[j + 1] == '{')
  }

  /** A pattern opening with "{{" can only occur at the start of such a text. */
  lemma NotContainedAfterStart(s: string, pat: string)
    requires |pat| >= 2 && pat[0] == '{' && pat[1] == '{'
    requires BracesOnlyAtStart(s)
    requires |s| < |pat| || s[..|pat|] != pat
    ensures !Contains(s, pat)
  {
    forall i: nat | 0 < i && i + |pat| <= |s| ensures !OccursAt(s, pat, i) {
      assert s[i..i + |pat|][0] == s[i] && s[i..i + |pat|][1] == s[i + 1];
    }
  }

  /** "{{loyer_nouveau}}" opens with its only "{{". */
  lemma LoyerNouveauBraces()
    ensures BracesOnlyAtStart(LoyerNouveau)
  {
    var s := LoyerNouveau;
    forall j | 1 <= j < |s| - 1 ensures !(s[j] == '{' && s[j + 1] == '{') {
      assert s[2..] == "loyer_nouveau}}";
      assert j >= 2 ==> s[j] == s[2..][j - 2];
    }
  }

  /** None of the first seven placeholders occurs in "{{loyer_nouveau}}". */
  lemma EarlierPlaceholdersAbsentFromLast()
    ensures forall k :: 0 <= k < 7 ==> !Contains(LoyerNouveau, Placeholders[k])
  {
    var s := LoyerNouveau;
    LoyerNouveauBraces();
    assert s[2] == 'l';
    NotContainedAfterStart(s, Nom);
    NotContainedAfterStart(s, AdresseBien);
    NotContainedAfterStart(s, DateDebut);
    NotContainedAfterStart(s, DatePlusUnAn);
    NotContainedAfterStart(s, IrlT);
    NotContainedAfterStart(s, IrlT1);
    assert s[8] != LoyerInitial[8];
    NotContainedAfterStart(s, LoyerInitial);
  }

  /**
   * The passes run in a fixed order. A name that holds none of the
   * placeholders of passes 2 to 7 comes out of the letter's "{{nom}}" with every
   * "{{loyer_nouveau}}" in it turned into the new rent by the last pass; the
   * last placeholder always becomes the new rent, whatever that value holds.
   */
  lemma SubstitutionOrder(values: seq<string>)
    requires |values| == |Placeholders|
    ensures (forall k :: 1 <= k < 7 ==> !Contains(values[0], Placeholders[k])) ==>
      Substitute(Nom, LetterPasses(values)) == ReplaceAll(values[0], LoyerNouveau, values[7])
    ensures Substitute(LoyerNouveau, LetterPasses(values)) == values[7]
  {
    SubstituteAsChain(Nom, values);
    SubstituteAsChain(LoyerNouveau, values);
    ReplaceAllOfPattern(Nom, values[0]);
    if forall k :: 1 <= k < 7 ==> !Contains(values[0], Placeholders[k]) {
      var v := values[0];
      assert !Contains(v, Placeholders[1]) && !Contains(v, Placeholders[2]) && !Contains(v, Placeholders[3]);
      assert !Contains(v, Placeholders[4]) && !Contains(v, Placeholders[5]) && !Contains(v, Placeholders[6]);
      ReplaceAllWithoutOccurrence(v, AdresseBien, values[1]);
      ReplaceAllWithoutOccurrence(v, DateDebut, values[2]);
      ReplaceAllWithoutOccurrence(v, DatePlusUnAn, values[3]);
      ReplaceAllWithoutOccurrence(v, IrlT, values[4]);
      ReplaceAllWithoutOccurrence(v, IrlT1, values[5]);
      ReplaceAllWithoutOccurrence(v, LoyerInitial, values[6]);
    }
    var s := LoyerNouveau;
    EarlierPlaceholdersAbsentFromLast();
    assert !Contains(s, Placeholders[0]) && !Contains(s, Placeholders[1]) && !Contains(s, Placeholders[2]);
    assert !Contains(s, Placeholders[3]) && !Contains(s, Placeholders[4]) && !Contains(s, Placeholders[5]);
    assert !Contains(s, Placeholders[6]);
    ReplaceAllWithoutOccurrence(s, Nom, values[0]);
    ReplaceAllWithoutOccurrence(s, AdresseBien, values[1]);
    ReplaceAllWithoutOccurrence(s, DateDebut, values[2]);
    ReplaceAllWithoutOccurrence(s, DatePlusUnAn, values[3]);
    ReplaceAllWithoutOccurrence(s, IrlT, values[4]);
    ReplaceAllWithoutOccurrence(s, IrlT1, values[5]);
    ReplaceAllWithoutOccurrence(s, LoyerInitial, values[6]);
    ReplaceAllOfPattern(LoyerNouveau, values[7]);
  }

  /** Running the passes in two batches is running them all. */
  lemma {:induction false} SubstituteSplit(template: string, passes: seq<(string, string)>, n: nat)
    requires n <= |passes|
    requires forall k :: 0 <= k < |passes| ==> |passes[k].0| > 0
    ensures Substitute(template, passes) == Substitute(Substitute(template, passes[..n]), passes[n..])
    decreases n
  {
    if n > 0 {
      assert passes[..n][1..] == passes[1..][..n - 1];
      assert passes[n..] == passes[1..][n - 1..];
      SubstituteSplit(ReplaceAll(template, passes[0].0, passes[0].1), passes[1..], n - 1);
    }
  }

  // ---------------------------------------------------------------------------
  // The lease-start date guard: `value.match(/^\d{4}-\d{2}-\d{2}$/)`

  /** A character class of an anchored pattern without repetition. */
  datatype CharClass = Digit | Literal(c: char)

  predicate InClass(c: char, cls: CharClass) {
    match cls
    case Digit => '0' <= c <= '9'
    case Literal(l) => c == l
  }

  /** `^\d{4}-\d{2}-\d{2}$`, written out one class per character. */
  const IsoDatePattern: seq<CharClass> :=
    [Digit, Digit, Digit, Digit, Literal('-'), Digit, Digit, Literal('-'), Digit, Digit]

  /** An anchored match of a fixed-length pattern, character by character. */
  predicate MatchesAnchored(s: string, pattern: seq<CharClass>)
    decreases |pattern|
  {
    if |pattern| == 0 then |s| == 0
    else |s| > 0 && InClass(s[0], pattern[0]) && MatchesAnchored(s[1..], pattern[1..])
  }

  lemma {:induction false} MatchesAnchoredPointwise(s: string, pattern: seq<CharClass>)
    ensures MatchesAnchored(s, pattern)
        <==> |s| == |pattern| && forall k :: 0 <= k < |s| ==> InClass(s[k], pattern[k])
  {
    if |pattern| > 0 && |s| > 0 {
      MatchesAnchoredPointwise(s[1..], pattern[1..]);
      if |s| == |pattern| && (forall k :: 1 <= k < |s| ==> InClass(s[k], pattern[k])) {
        assert forall k :: 0 <= k < |s| - 1 ==> s[1..][k] == s[k + 1] && pattern[1..][k] == pattern[k + 1];
      }
    }
  }

  predicate IsDigit(c: char) {
    '0' <= c <= '9'
  }

  /** The shape `YYYY-MM-DD`: ten characters, digits except the dashes at 4 and 7. */
  predicate IsIsoDateShape(s: string) {
    && |s| == 10
    && s[4] == '-' && s[7] == '-'
    && forall k :: 0 <= k < 10 && k != 4 && k != 7 ==> IsDigit(s[k])
  }

  /** The regular expression accepts exactly the `YYYY-MM-DD` shapes. */
  lemma IsoDateRegex(s: string)
    ensures MatchesAnchored(s, IsoDatePattern) <==> IsIsoDateShape(s)
  {
    MatchesAnchoredPointwise(s, IsoDatePattern);
    assert forall k :: 0 <= k < |IsoDatePattern| ==>
      IsoDatePattern[k] == if k == 4 || k == 7 then Literal('-') else Digit;
  }

  lemma IsoDateExamples()
    ensures IsIsoDateShape("2024-03-01")
    ensures !IsIsoDateShape("2024-3-01")
    ensures !IsIsoDateShape("01/03/2024")
    ensures !IsIsoDateShape("")
  {
    assert "01/03/2024"[4] == '3';
  }

  /** The recalculation runs only for a non-empty initial rent and two truthy indices. */
  predicate CanRecalculate(loyerInitial: string, irlT: Option<Num>, irlT1: Option<Num>) {
    loyerInitial != "" && irlT.Some? && Truthy(irlT.value) && irlT1.Some? && Truthy(irlT1.value)
  }

  // ---------------------------------------------------------------------------
  // The editor's state

  /** The state fields of the editor component that the modelled handlers use. */
  class ReajustementLetterEditor {
    var dateDebut: string
    var datePlusUnAn: string
    var irlT: Option<Num>
    var irlT1: Option<Num>
    var loyerInitial: string
    var loyerNouveau: string
    var nom: string
    var adresseBien: string
    var template: string

    /** The initial `useState` values. */
    constructor ()
      ensures dateDebut == "" && datePlusUnAn == "" && irlT == None && irlT1 == None
      ensures loyerInitial == "" && loyerNouveau == "" && nom == "" && adresseBien == ""
      ensures template == DefaultTemplate
    {
      dateDebut, datePlusUnAn := "", "";
      irlT, irlT1 := None, None;
      loyerInitial, loyerNouveau := "", "";
      nom, adresseBien := "", "";
      template := DefaultTemplate;
    }

    /**
     * `handleDateDebutChange`: the input is always recorded; the anniversary date
     * is recomputed (by `addOneYear`, the left-out date arithmetic) only for an
     * input of the shape `YYYY-MM-DD`.
     */
    method HandleDateDebutChange(value: string, addOneYear: string -> string)
      modifies this`dateDebut, this`datePlusUnAn
      ensures dateDebut == value
      ensures IsIsoDateShape(value) ==> datePlusUnAn == addOneYear(value)
      ensures !IsIsoDateShape(value) ==> datePlusUnAn == old(datePlusUnAn)
    {
      dateDebut := value;
      IsoDateRegex(value);
      if MatchesAnchored(value, IsoDatePattern) {
        datePlusUnAn := addOneYear(value);
      }
    }

    /**
     * `handleCalculerLoyer`: nothing changes unless the initial rent is
     * non-empty and both indices are truthy; then the new rent is what
     * `revise` (the left-out arithmetic `loyerInitial * irlT1 / irlT` with
     * `toFixed(2)`) gives.
     */
    method HandleCalculerLoyer(revise: (string, Num, Num) -> string)
      modifies this`loyerNouveau
      ensures !CanRecalculate(loyerInitial, irlT, irlT1) ==> loyerNouveau == old(loyerNouveau)
      ensures CanRecalculate(loyerInitial, irlT, irlT1) ==> loyerNouveau == revise(loyerInitial, irlT.value, irlT1.value)
    {
      if loyerInitial == "" || irlT.None? || !Truthy(irlT.value) || irlT1.None? || !Truthy(irlT1.value) {
        return;
      }
      loyerNouveau := revise(loyerInitial, irlT.value, irlT1.value);
    }

    /** The eight values, in placeholder order. */
    function Values(numberText: Num -> string): (values: seq<string>)
      reads this
      ensures |values| == |Placeholders|
    {
      [nom, adresseBien, dateDebut, datePlusUnAn, IrlText(irlT, numberText), IrlText(irlT1, numberText),
       loyerInitial, loyerNouveau]
    }

    /**
     * `getLetterHtml`: the template through the eight global replacements, in
     * source order, each index shown as `IrlText` shows it.
     */
    function LetterHtml(numberText: Num -> string): (html: string)
      reads this
      ensures html
        == ReplaceAll(ReplaceAll(ReplaceAll(ReplaceAll(ReplaceAll(ReplaceAll(ReplaceAll(ReplaceAll(template,
             Nom, nom), AdresseBien, adresseBien), DateDebut, dateDebut), DatePlusUnAn, datePlusUnAn),
             IrlT, IrlText(irlT, numberText)), IrlT1, IrlText(irlT1, numberText)),
             LoyerInitial, loyerInitial), LoyerNouveau, loyerNouveau)
    {
      SubstituteAsChain(template, Values(numberText));
      Substitute(template, LetterPasses(Values(numberText)))
    }
  }

  /** A template without any of the eight placeholders is the letter itself, whatever the fields hold. */
  lemma LetterWithoutPlaceholders(editor: ReajustementLetterEditor, numberText: Num -> string)
    requires forall k :: 0 <= k < |Placeholders| ==> !Contains(editor.template, Placeholders[k])
    ensures editor.LetterHtml(numberText) == editor.template
  {
    SubstituteWithoutPlaceholders(editor.template, LetterPasses(editor.Values(numberText)));
  }

  /** Fields that hold their own placeholders leave any template as it is. */
  lemma {:induction false} SubstituteOwnPlaceholders(template: string, passes: seq<(string, string)>)
    requires forall k :: 0 <= k < |passes| ==> |passes[k].0| > 0 && passes[k].1 == passes[k].0
    ensures Substitute(template, passes) == template
  {
    if |passes| > 0 {
      ReplaceAllIdentity(template, passes[0].0);
      SubstituteOwnPlaceholders(template, passes[1..]);
    }
  }
}
