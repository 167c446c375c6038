/**
 * Text as Python and PostgreSQL count it (one unit a code point), and the two tables the quote
 * validator folds by: the whitespace `str.isspace` recognises and the typography it tidies.
 *
 * The proofs about folding hold for all `Rules` that are `Lawful`; `PYTHON_RULES` is the pair
 * the program uses.
 */
module Typography {

  type CodePoint = n: int | 0 <= n < 0x11_0000

  type Text = seq<CodePoint>

  const SPACE: CodePoint := 0x20
  const QUOTATION_MARK: CodePoint := 0x22
  const APOSTROPHE: CodePoint := 0x27
  const HYPHEN: CodePoint := 0x2D
  const DOT: CodePoint := 0x2E
  const ELLIPSIS: CodePoint := 0x2026

  /** `char.isspace()` and the characters one printed character folds to. */
  datatype Rules = Rules(isSpace: CodePoint -> bool, produced: CodePoint -> Text)

  /**
   * The plain space is whitespace. A printed character folds to one printed character, except
   * the ellipsis, a printed character that folds to three dots.
   */
  ghost predicate Lawful(rules: Rules) {
    && rules.isSpace(SPACE) && !rules.isSpace(ELLIPSIS)
    && rules.produced(ELLIPSIS) == [DOT, DOT, DOT]
    && (forall c :: c != ELLIPSIS ==> |rules.produced(c)| == 1)
    && (forall c :: !rules.isSpace(c) ==> Solid(rules, rules.produced(c)))
  }

  predicate Solid(rules: Rules, text: Text) {
    forall k :: 0 <= k < |text| ==> !rules.isSpace(text[k])
  }

  /** `text.strip()` leaves something. */
  predicate NonBlank(rules: Rules, text: Text) {
    exists k :: 0 <= k < |text| && !rules.isSpace(text[k])
  }

  predicate IsSpace(c: CodePoint) {
    || 0x09 <= c <= 0x0D
    || 0x1C <= c <= 0x20
    || c == 0x85
    || c == 0xA0
    || c == 0x1680
    || 0x2000 <= c <= 0x200A
    || c == 0x2028
    || c == 0x2029
    || c == 0x202F
    || c == 0x205F
    || c == 0x3000
  }

  /** Dashes and minus, single and double quotation marks, guillemets, the ellipsis; else the character itself. */
  function Produced(c: CodePoint): Text {
    if c == 0x2013 || c == 0x2014 || c == 0x2212 then [HYPHEN]
    else if c == 0x2018 || c == 0x2019 then [APOSTROPHE]
    else if c == 0x201C || c == 0x201D || c == 0x201E || c == 0xAB || c == 0xBB then [QUOTATION_MARK]
    else if c == ELLIPSIS then [DOT, DOT, DOT]
    else [c]
  }

  // The whitespace of the Unicode database, by what it is.
  const SPACE_SEPARATORS: set<CodePoint> := {
    0x20, 0xA0, 0x1680, 0x2000, 0x2001, 0x2002, 0x2003, 0x2004, 0x2005, 0x2006, 0x2007, 0x2008, 0x2009, 0x200A,
    0x202F, 0x205F, 0x3000
  }
  const LINE_SEPARATORS: set<CodePoint> := {0x2028, 0x2029}
  const SEPARATING_CONTROLS: set<CodePoint> := {0x09, 0x0A, 0x0B, 0x0C, 0x0D, 0x1C, 0x1D, 0x1E, 0x1F, 0x85}

  lemma WhitespaceIff(c: CodePoint)
    ensures IsSpace(c) <==> c in SPACE_SEPARATORS || c in LINE_SEPARATORS || c in SEPARATING_CONTROLS
  {
  }

  // The characters a model tidies, by what they are.
  const DASHES: set<CodePoint> := {0x2013, 0x2014, 0x2212}
  const SINGLE_QUOTES: set<CodePoint> := {0x2018, 0x2019}
  const DOUBLE_QUOTES: set<CodePoint> := {0x201C, 0x201D, 0x201E, 0xAB, 0xBB}

  /** Whether the typography table has the character. */
  predicate IsTypographic(c: CodePoint) {
    c in DASHES || c in SINGLE_QUOTES || c in DOUBLE_QUOTES || c == ELLIPSIS
  }

  /** Each class folds to its ASCII character, and what is in no class stays as it is. */
  lemma ProducedByClass(c: CodePoint)
    ensures c in DASHES ==> Produced(c) == [HYPHEN]
    ensures c in SINGLE_QUOTES ==> Produced(c) == [APOSTROPHE]
    ensures c in DOUBLE_QUOTES ==> Produced(c) == [QUOTATION_MARK]
    ensures c == ELLIPSIS ==> Produced(c) == [DOT, DOT, DOT]
    ensures !IsTypographic(c) ==> Produced(c) == [c]
  {
  }

  /** Printable ASCII and the Latin letters, Polish ones among them, are neither whitespace nor tidied. */
  lemma LettersArePlain(c: CodePoint)
    requires 0x21 <= c <= 0x7E || 0xC0 <= c <= 0x24F
    ensures !IsSpace(c) && !IsTypographic(c)
  {
  }

  /** Two characters fold alike exactly when they are the same or stand in one class with its ASCII character. */
  lemma FoldAlikeIff(a: CodePoint, b: CodePoint)
    ensures Produced(a) == Produced(b) <==>
              || a == b
              || {a, b} <= DASHES + {HYPHEN}
              || {a, b} <= SINGLE_QUOTES + {APOSTROPHE}
              || {a, b} <= DOUBLE_QUOTES + {QUOTATION_MARK}
  {
    ProducedByClass(a);
    ProducedByClass(b);
    assert a in {a, b} && b in {a, b};
    if Produced(a) == Produced(b) && a != b {
      assert Produced(a)[0] == Produced(b)[0];
    }
  }

  const PYTHON_RULES: Rules := Rules(IsSpace, Produced)

  lemma PythonRulesLawful()
    ensures Lawful(PYTHON_RULES)
  {
    forall c | !PYTHON_RULES.isSpace(c)
      ensures Solid(PYTHON_RULES, PYTHON_RULES.produced(c))
    {
      assert !IsSpace(c) && PYTHON_RULES.produced(c) == Produced(c);
    }
  }
}
