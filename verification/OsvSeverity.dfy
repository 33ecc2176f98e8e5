/** The readings that decide a finding's severity, case by case. */
module OsvSeverity {
  import opened Common
  import opened Decimal
  import opened Text
  import opened OsvTypes
  import opened OsvFinding

  /** The labels that are recognised, in lower case. */
  const LABELS: map<string, Severity> :=
    map["critical" := Critical, "high" := High, "medium" := Medium, "moderate" := Medium, "low" := Low]

  /** The classes that make an advisory informational, in lower case. */
  const INFORMATIONAL: set<string> := {"unmaintained", "unsound", "notice"}

  // ----- Scores ----------------------------------------------------------------------------------

  /** Vector `i` is the first from which a score can be computed. */
  ghost predicate FirstComputed(lib: Library, vectors: seq<Option<string>>, i: nat) {
    && i < |vectors| && vectors[i].Some? && lib.baseScore(vectors[i].value).Some?
    && forall j :: 0 <= j < i ==> vectors[j].None? || lib.baseScore(vectors[j].value).None?
  }

  lemma {:induction false} FirstScoreExactly(lib: Library, vectors: seq<Option<string>>)
    ensures FirstScore(lib, vectors).None? ==> forall i: nat :: !FirstComputed(lib, vectors, i)
    ensures forall i: nat :: FirstComputed(lib, vectors, i) ==> FirstScore(lib, vectors) == lib.baseScore(vectors[i].value)
    ensures FirstScore(lib, vectors).Some? ==> exists i: nat :: FirstComputed(lib, vectors, i)
  {
    if vectors != [] && !(vectors[0].Some? && lib.baseScore(vectors[0].value).Some?) {
      FirstScoreExactly(lib, vectors[1..]);
      forall i: nat | FirstComputed(lib, vectors, i) ensures i > 0 && FirstComputed(lib, vectors[1..], i - 1) {
      }
      if i: nat :| FirstComputed(lib, vectors[1..], i) {
        ComputedLater(lib, vectors, i);
      }
    } else if vectors != [] {
      assert FirstComputed(lib, vectors, 0);
    }
  }

  lemma ComputedLater(lib: Library, vectors: seq<Option<string>>, i: nat)
    requires vectors != [] && (vectors[0].None? || lib.baseScore(vectors[0].value).None?) && FirstComputed(lib, vectors[1..], i)
    ensures FirstComputed(lib, vectors, i + 1)
  {
    forall j | 0 <= j < i + 1 ensures vectors[j].None? || lib.baseScore(vectors[j].value).None? {
      if j > 0 {
        assert vectors[j] == vectors[1..][j - 1];
      }
    }
  }

  /** No score on the scale can be computed. */
  ghost predicate Unscored(lib: Library, v: OsvVuln) {
    forall i: nat :: FirstComputed(lib, v.severity, i) ==> !(0.1 <= lib.baseScore(v.severity[i].value).value <= 10.0)
  }

  lemma UnscoredExactly(lib: Library, v: OsvVuln)
    ensures Unscored(lib, v) <==> ReadScore(lib, v) == None
  {
    FirstScoreExactly(lib, v.severity);
  }

  // ----- Labels ----------------------------------------------------------------------------------

  /** A text that does not begin like a number. */
  predicate Wordy(text: string) {
    text == [] || !(IsDigit(text[0]) || text[0] == '.')
  }

  lemma WordyHasNoNumber(text: string)
    requires Wordy(text)
    ensures ParseDecimal(LeadingNumeric(text)) == None
  {
    assert LeadingNumeric(text) == [];
    assert DotIndex([]) == 0;
  }

  lemma LabelIsWordy(text: string)
    requires Norm(text) in LABELS
    ensures Trim(text) != [] && Wordy(Trim(text))
  {
    assert LowerChar(Trim(text)[0]) == Norm(text)[0];
  }

  /**
   Without a score on the scale, a recognised label decides the severity, whatever its case and the
   space around it.
   */
  lemma LabelDecides(lib: Library, c: Component, v: OsvVuln, text: string)
    requires Unscored(lib, v) && v.databaseSpecific.Some? && v.databaseSpecific.value.severity == Some(text) && Norm(text) in LABELS
    ensures VulnToFinding(lib, c, v).severity == LABELS[Norm(text)] && VulnToFinding(lib, c, v).assessed
  {
    UnscoredExactly(lib, v);
    LabelRead(text);
    LabelIsRead(lib, c, v, text);
  }

  lemma LabelRead(text: string)
    requires Norm(text) in LABELS
    ensures LabelToSeverity(text) == Some(LABELS[Norm(text)])
  {
    LabelIsWordy(text);
    WordyHasNoNumber(Trim(text));
  }

  lemma LabelIsRead(lib: Library, c: Component, v: OsvVuln, text: string)
    requires ReadScore(lib, v) == None && v.databaseSpecific.Some? && v.databaseSpecific.value.severity == Some(text)
    requires LabelToSeverity(text).Some?
    ensures VulnToFinding(lib, c, v).severity == LabelToSeverity(text).value && VulnToFinding(lib, c, v).assessed
  {
    ScoreUnread(lib, v);
  }

  lemma ScoreUnread(lib: Library, v: OsvVuln)
    requires ReadScore(lib, v) == None
    ensures FirstScore(lib, v.severity).Some? ==> CvssScoreToSeverity(FirstScore(lib, v.severity).value) == None
  {
  }

  /** Any other text that does not begin like a number decides nothing: the severity falls to the class, or to the highest. */
  lemma OtherLabelDecidesNothing(lib: Library, c: Component, v: OsvVuln, text: string)
    requires Unscored(lib, v) && v.databaseSpecific.Some? && v.databaseSpecific.value.severity == Some(text)
    requires Norm(text) !in LABELS && Wordy(Trim(text))
    ensures var f := VulnToFinding(lib, c, v);
            f.severity == (if Informational(InformationalClass(c, v)) then Low else Critical) && f.assessed == Informational(InformationalClass(c, v))
  {
    UnscoredExactly(lib, v);
    ScoreUnread(lib, v);
    WordyHasNoNumber(Trim(text));
  }

  lemma NumberLeads(whole: string, tenth: char, rest: string)
    requires whole != [] && AllDigits(whole) && IsDigit(tenth) && (rest == [] || !(IsDigit(rest[0]) || rest[0] == '.'))
    ensures LeadingNumeric(whole + ['.', tenth] + rest) == whole + ['.', tenth]
  {
    var number := whole + ['.', tenth];
    NumericRun(number, rest);
  }

  lemma {:induction false} NumericRun(number: string, rest: string)
    requires forall i :: 0 <= i < |number| ==> IsDigit(number[i]) || number[i] == '.'
    requires rest == [] || !(IsDigit(rest[0]) || rest[0] == '.')
    ensures LeadingNumeric(number + rest) == number
  {
    if number == [] {
      assert number + rest == rest;
    } else {
      assert (number + rest)[1..] == number[1..] + rest;
      NumericRun(number[1..], rest);
    }
  }

  lemma {:induction false} DotAfter(whole: string, fraction: string)
    requires AllDigits(whole)
    ensures DotIndex(whole + ['.'] + fraction) == |whole|
  {
    var s := whole + ['.'] + fraction;
    if whole != [] {
      assert s[1..] == whole[1..] + ['.'] + fraction;
      DotAfter(whole[1..], fraction);
    }
  }

  lemma PartsParsed(whole: string, fraction: string)
    requires whole != [] && AllDigits(whole) && AllDigits(fraction)
    ensures ParseDecimal(whole + ['.'] + fraction) == Some(DecimalValue(whole, fraction))
  {
    var s := whole + ['.'] + fraction;
    DotAfter(whole, fraction);
    assert s[..|whole|] == whole && s[|whole| + 1..] == fraction;
  }

  lemma Tenths(whole: string, tenth: char, score: real)
    requires AllDigits(whole) && IsDigit(tenth) && 10.0 * score == (10 * Value(whole) + DigitValue(tenth)) as real
    ensures DecimalValue(whole, [tenth]) == score
  {
    assert [tenth][..0] == [] && Value([tenth]) == DigitValue(tenth);
    assert Pow10(1) == 10.0 * Pow10(0);
  }

  lemma TenthsParsed(whole: string, tenth: char, score: real)
    requires whole != [] && AllDigits(whole) && IsDigit(tenth) && 10.0 * score == (10 * Value(whole) + DigitValue(tenth)) as real
    ensures ParseDecimal(whole + ['.'] + [tenth]) == Some(score)
  {
    Tenths(whole, tenth, score);
    PartsParsed(whole, [tenth]);
  }

  lemma NumberRead(text: string, score: real)
    requires Trim(text) != [] && ParseDecimal(LeadingNumeric(Trim(text))) == Some(score) && CvssScoreToSeverity(score).Some?
    ensures LabelToSeverity(text) == CvssScoreToSeverity(score)
  {
  }

  /** A text that begins with this number: digits, a point, one digit, and then nothing a number could go on with. */
  ghost predicate Begins(text: string, whole: string, tenth: char, rest: string) {
    && whole != [] && AllDigits(whole) && IsDigit(tenth) && (rest == [] || !(IsDigit(rest[0]) || rest[0] == '.'))
    && text == whole + ['.', tenth] + rest
  }

  ghost predicate BeginsWith(text: string, score: real) {
    exists whole, tenth, rest :: Begins(text, whole, tenth, rest) && 10.0 * score == (10 * Value(whole) + DigitValue(tenth)) as real
  }

  lemma TenthsRead(text: string, score: real)
    requires BeginsWith(text, score)
    ensures text != [] && ParseDecimal(LeadingNumeric(text)) == Some(score)
  {
    var whole, tenth, rest :| Begins(text, whole, tenth, rest) && 10.0 * score == (10 * Value(whole) + DigitValue(tenth)) as real;
    NumberLeads(whole, tenth, rest);
    assert whole + ['.', tenth] == whole + ['.'] + [tenth];
    TenthsParsed(whole, tenth, score);
  }

  /** A label that begins with a number on the scale decides the severity by that number. */
  lemma NumberDecides(lib: Library, c: Component, v: OsvVuln, text: string, score: real)
    requires Unscored(lib, v) && v.databaseSpecific.Some? && v.databaseSpecific.value.severity == Some(text)
    requires BeginsWith(Trim(text), score) && CvssScoreToSeverity(score).Some?
    ensures VulnToFinding(lib, c, v).severity == CvssScoreToSeverity(score).value
  {
    UnscoredExactly(lib, v);
    TenthsRead(Trim(text), score);
    NumberRead(text, score);
    LabelIsRead(lib, c, v, text);
  }

  // ----- Classes ---------------------------------------------------------------------------------

  /** A record's own class makes its finding informational if and only if it is recognised and there is no score. */
  lemma ClassDecides(lib: Library, c: Component, v: OsvVuln, text: string)
    requires v.databaseSpecific.Some? && v.databaseSpecific.value.informational == Some(text)
    ensures IsInformational(VulnToFinding(lib, c, v)) <==> (forall i: nat :: !FirstComputed(lib, v.severity, i)) && Norm(text) in INFORMATIONAL
  {
    FirstScoreExactly(lib, v.severity);
  }
}
