# ConsecutiveBlankLines, modelled in Dafny

This project models detekt's formatting rule `ConsecutiveBlankLines`.
The rule visits every whitespace token of a Kotlin file and splits the token's text on `"\n"`.
If that gives more than three parts, the token holds two or more blank lines in a row, and the rule reports a finding.
With auto-correct enabled, the rule then replaces the token's text by its first part, `"\n\n"` and its last part.
That leaves exactly one blank line and keeps the indentation before the first newline and after the last one.

Two modules:

- `TextLines` (`text_lines.dfy`) models Kotlin's `split("\n")` as `Split`, with `Join` (`joinToString("\n")`) as its inverse and `NewlineCount`.
  `Split` keeps empty parts, so `""` splits into `[""]`.
  Only `'\n'` separates parts; a `'\r'` stays inside its part.
- `ConsecutiveBlankLines` (`consecutive_blank_lines.dfy`) holds the trigger `ShouldReport`, the replacement `Fix` and lemmas about them.
  It also holds the stateful part: a `Rule` class with the auto-correct setting and a findings counter, and a `WhitespaceLeaf` class whose `text` field stands in for the syntax-tree leaf.
  `Rule.VisitSpaces` is `visitSpaces`.

## Model

| member | source | states |
|---|---|---|
| `TextLines.Split` | detekt-formatting/src/main/kotlin/io/gitlab/arturbosch/detekt/formatting/ConsecutiveBlankLines.kt:16 | splitting on newline gives one part more than there are newlines, and no part contains a newline |
| `TextLines.JoinSplit` | detekt-formatting/src/main/kotlin/io/gitlab/arturbosch/detekt/formatting/ConsecutiveBlankLines.kt:16 | splitting loses nothing: joining the parts with newlines gives back the original text |
| `TextLines.SplitJoin` | detekt-formatting/src/main/kotlin/io/gitlab/arturbosch/detekt/formatting/ConsecutiveBlankLines.kt:16 | for any non-empty list of newline-free parts, splitting their join gives that list back, so the split is the only such decomposition |
| `TextLines.JoinNewlineCount` | detekt-formatting/src/main/kotlin/io/gitlab/arturbosch/detekt/formatting/ConsecutiveBlankLines.kt:16 | joining n newline-free parts produces exactly n - 1 newlines |
| `ConsecutiveBlankLines.ShouldReport` | detekt-formatting/src/main/kotlin/io/gitlab/arturbosch/detekt/formatting/ConsecutiveBlankLines.kt:16-17 | the rule triggers if and only if the token holds at least three newline characters |
| `ConsecutiveBlankLines.Fix` | detekt-formatting/src/main/kotlin/io/gitlab/arturbosch/detekt/formatting/ConsecutiveBlankLines.kt:20 | the replacement splits into the old first part, one empty line and the old last part; it holds exactly two newlines and never triggers the rule |
| `ConsecutiveBlankLines.FixDropsMiddle` | detekt-formatting/src/main/kotlin/io/gitlab/arturbosch/detekt/formatting/ConsecutiveBlankLines.kt:16-20 | a reported token is first part, newline, middle, newline, last part; the fix keeps both ends and drops the middle, which holds all but two of the newlines |
| `ConsecutiveBlankLines.FixKeepsEnds` | detekt-formatting/src/main/kotlin/io/gitlab/arturbosch/detekt/formatting/ConsecutiveBlankLines.kt:16-20 | the text before the first newline is a prefix, and the text after the last newline a suffix, of both the old and the new token; neither contains a newline |
| `ConsecutiveBlankLines.FixShrinks` | detekt-formatting/src/main/kotlin/io/gitlab/arturbosch/detekt/formatting/ConsecutiveBlankLines.kt:16-20 | a corrected token is strictly shorter than the original, and every character it holds was in the original |
| `ConsecutiveBlankLines.FixIdempotent` | detekt-formatting/src/main/kotlin/io/gitlab/arturbosch/detekt/formatting/ConsecutiveBlankLines.kt:17-20 | a corrected token is not reported again, and correcting it again changes nothing |
| `ConsecutiveBlankLines.Rule.constructor` | detekt-formatting/src/main/kotlin/io/gitlab/arturbosch/detekt/formatting/ConsecutiveBlankLines.kt:13 | a new rule keeps its auto-correct setting and has no findings |
| `ConsecutiveBlankLines.Rule.VisitSpaces` | detekt-formatting/src/main/kotlin/io/gitlab/arturbosch/detekt/formatting/ConsecutiveBlankLines.kt:15-23 | one finding is added exactly when the token triggers the rule, whatever the auto-correct setting; the token's text is replaced by the fix only when it triggers and auto-correct is on, and is otherwise unchanged |
| `ConsecutiveBlankLines.VisitTwice` | detekt-formatting/src/main/kotlin/io/gitlab/arturbosch/detekt/formatting/ConsecutiveBlankLines.kt:15-23 | running the rule again over the rewritten tree: with auto-correct a triggering token is reported once and the second visit changes nothing; without it, it is reported twice and never changes |

## Left out

- The finding's `CodeSmell`, its `Entity.from(space, offset = 2)` source position and the rule's severity: the rule engine's reporting plumbing. A finding is a counter increment.
- The `Config` lookup behind `withAutoCorrect`: modelled as the rule's `autoCorrect` flag, fixed at construction.
- How `LeafPsiElement.replaceWithText` rewrites the syntax tree: the source installs a new leaf in place of the visited one; the model updates the leaf's `text` field in place, so a later visit of the same `WhitespaceLeaf` stands for a visit of the rewritten tree.
- The kind of token: the rule only sees whitespace tokens, but the model accepts any text, since the rule itself never checks that.
- The cast `(space as LeafPsiElement)` before the rewrite, which would throw if the whitespace token were not a leaf element: whitespace tokens of the Kotlin compiler are leaf elements, so the model has every token be a `WhitespaceLeaf` and never fails there.
