/**
 * The formatting rule ConsecutiveBlankLines: a whitespace token that holds
 * two or more blank lines in a row (three or more newline characters) is
 * reported, and with auto-correct enabled it is rewritten so that a single
 * blank line remains, keeping what stood before its first newline and after
 * its last one.
 */
module ConsecutiveBlankLines {
  import opened TextLines

  /** What the token holds before its first newline (`parts.first()`). */
  function First(text: string): string
  {
    Split(text)[0]
  }

  /** What the token holds after its last newline (`parts.last()`). */
  function Last(text: string): string
  {
    var parts := Split(text);
    parts[|parts| - 1]
  }

  /** What lies strictly between the first and the last newline. */
  function Middle(text: string): string
    requires |Split(text)| >= 2
  {
    var parts := Split(text);
    Join(parts[1..|parts| - 1])
  }

  /** The rule's trigger `parts.size > 3`: at least two blank lines. */
  function ShouldReport(text: string): (report: bool)
    ensures report <==> NewlineCount(text) >= 3
  {
    |Split(text)| > 3
  }

  /**
   * The replacement text `first + "\n\n" + last`. It holds exactly two
   * newlines, splits into the old first part, one empty line and the old
   * last part, and so never triggers the rule.
   */
  function Fix(text: string): (fixed: string)
    ensures Split(fixed) == [First(text), "", Last(text)]
    ensures NewlineCount(fixed) == 2
    ensures !ShouldReport(fixed)
  {
    var parts := Split(text);
    var first, last := parts[0], parts[|parts| - 1];
    var fixed := first + "\n\n" + last;
    assert Join([first, "", last]) == fixed by {
      assert [first, "", last][1..] == ["", last];
      assert ["", last][1..] == [last];
      assert Join(["", last]) == "\n" + last;
      assert first + "\n" + ("\n" + last) == fixed;
    }
    assert NoNewlines([first, "", last]) by {
      assert forall i :: 0 <= i < |parts| ==> Newline !in parts[i];
    }
    SplitJoin([first, "", last]);
    fixed
  }

  /**
   * A reported token consists of its first part, a newline, the middle,
   * another newline and its last part; the fix keeps the first and last parts
   * and drops the middle, which holds all but two of the token's newlines.
   */
  lemma {:induction false} FixDropsMiddle(text: string)
    requires ShouldReport(text)
    ensures text == First(text) + "\n" + Middle(text) + "\n" + Last(text)
    ensures Fix(text) == First(text) + "\n" + "\n" + Last(text)
    ensures NewlineCount(Middle(text)) == NewlineCount(text) - 2 >= 1
  {
    var parts := Split(text);
    var k := |parts|;
    var inner := parts[1..k - 1];
    JoinSplit(text);
    assert text == parts[0] + "\n" + Join(parts[1..]);
    JoinLast(parts[1..]);
    assert parts[1..][..k - 2] == inner;
    assert NoNewlines(inner) by {
      forall i | 0 <= i < |inner| ensures Newline !in inner[i] {
        assert inner[i] == parts[i + 1];
      }
    }
    JoinNewlineCount(inner);
  }

  /**
   * The fix keeps the text before the first newline as a prefix and the text
   * after the last newline as a suffix of both the old and the new token.
   */
  lemma {:induction false} FixKeepsEnds(text: string)
    requires ShouldReport(text)
    ensures First(text) <= text && First(text) <= Fix(text)
    ensures Newline !in First(text) && Newline !in Last(text)
    ensures |First(text)| + |Last(text)| < |text|
    ensures Last(text) == text[|text| - |Last(text)|..]
    ensures Last(text) == Fix(text)[|Fix(text)| - |Last(text)|..]
  {
    FixDropsMiddle(text);
    var f, m, l := First(text), Middle(text), Last(text);
    assert text == f + ("\n" + m + "\n" + l);
    assert text == (f + "\n" + m + "\n") + l;
    assert Fix(text) == f + ("\n" + "\n" + l);
    assert Fix(text) == (f + "\n" + "\n") + l;
  }

  /**
   * A reported token gets strictly shorter, and what remains is taken from
   * it: no character is added, only the middle and surplus newlines go.
   */
  lemma {:induction false} FixShrinks(text: string)
    requires ShouldReport(text)
    ensures |Fix(text)| < |text|
    ensures multiset(Fix(text)) <= multiset(text)
  {
    FixDropsMiddle(text);
    var f, m, l := First(text), Middle(text), Last(text);
    NewlineCountNone(m);
    assert |m| >= 1;
    assert multiset(text) == multiset(f) + multiset("\n") + multiset(m) + multiset("\n") + multiset(l);
    assert multiset(Fix(text)) == multiset(f) + multiset("\n") + multiset("\n") + multiset(l);
  }

  /**
   * The fix is idempotent: once corrected, the token is not reported again
   * and a second correction would change nothing. Both follow from the
   * contract of Fix, which fixes the parts of the corrected token.
   */
  lemma FixIdempotent(text: string)
    ensures !ShouldReport(Fix(text))
    ensures Fix(Fix(text)) == Fix(text)
  {
  }

  /** A whitespace leaf of the syntax tree; only its text is modelled. */
  class WhitespaceLeaf {
    var text: string

    constructor (text: string)
      ensures this.text == text
    {
      this.text := text;
    }
  }

  /** The rule, with its auto-correct setting and the findings it reported. */
  class Rule {
    const autoCorrect: bool
    var findings: nat

    constructor (autoCorrect: bool)
      ensures this.autoCorrect == autoCorrect && findings == 0
    {
      this.autoCorrect := autoCorrect;
      findings := 0;
    }

    /**
     * `visitSpaces`: a finding is added whenever the token triggers the rule,
     * whatever the auto-correct setting; the token's text changes only when
     * it triggers and auto-correct is on.
     */
    method VisitSpaces(space: WhitespaceLeaf)
      modifies this, space
      ensures findings == old(findings) + (if ShouldReport(old(space.text)) then 1 else 0)
      ensures space.text == if ShouldReport(old(space.text)) && autoCorrect
                            then Fix(old(space.text)) else old(space.text)
    {
      var parts := Split(space.text);
      if |parts| > 3 {
        findings := findings + 1;
        if autoCorrect {
          space.text := parts[0] + "\n\n" + parts[|parts| - 1];
        }
      }
    }
  }

  /**
   * Running the rule a second time over the tree the first run rewrote (the
   * leaf's text is updated in place here, where the source installs a new
   * leaf): with auto-correct the second run reports nothing and leaves the
   * corrected text alone; without it, a triggering token is reported on both
   * runs and never changes.
   */
  method VisitTwice(text: string, autoCorrect: bool) returns (findings: nat, result: string)
    ensures findings == if !ShouldReport(text) then 0 else if autoCorrect then 1 else 2
    ensures result == if ShouldReport(text) && autoCorrect then Fix(text) else text
    ensures !autoCorrect || !ShouldReport(result)
  {
    var rule := new Rule(autoCorrect);
    var space := new WhitespaceLeaf(text);
    rule.VisitSpaces(space);
    FixIdempotent(text);
    rule.VisitSpaces(space);
    findings, result := rule.findings, space.text;
  }
}
