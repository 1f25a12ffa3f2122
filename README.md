# anti-plagiarism: normalise-and-score core in Dafny

`compare.py` scores how alike two Python scripts are. It parses each
script and rewrites the tree into a canonical form:

- At module level and in every class and function body, every standalone
  string expression (docstrings and the like) is removed.
- The remaining statements of such a body are regrouped into six buckets, in
  this order: imports, from-imports, classes, async functions, functions,
  everything else.
- Each declaration bucket is stably sorted by a key: the declared name (for an
  import, its first name; for a from-import, its module or `""`), lower-cased
  and with underscores removed. The last bucket keeps its order.

The tree is then unparsed and reduced to its lower-case letters and digits.
The two texts are compared by Levenshtein distance, and the score is
`(max(m, n) - distance) / max(m, n)`, or 1 when both texts are empty.

The model has one module per concern:

| file | module | what it holds |
|---|---|---|
| ast.dfy | PyAst | the statements the normaliser tells apart, the six buckets and their order |
| ascii.dfy | Ascii | ASCII lower-casing |
| sort_keys.dfy | SortKeys | the sort key of a statement; Python's string order and its laws |
| selection.dfy | Selection | order-preserving selection (docstrings out, one bucket, one key) |
| stable_sort.dfy | StableSort | `sorted(list, key=...)` as a stable insertion sort and its characterisation |
| normalizer.dfy | Normalizer | `remove_docstrings` and `lexicographically_sort_names` as loops proved against the functions that specify them; the canonical form of a tree and its laws |
| formatter.dfy | Formatter | the walk of `format_script` as methods built from the two loops, proved equal to the canonical form |
| invariance.dfy | Invariance | the general invariance theorems: reordering a body as the sort allows, and removing docstrings at any depth |
| levenshtein.dfy | Levenshtein | the dynamic programme on a 2-D array, its recursive specification and its laws |
| canonical_text.dfy | CanonicalText | lower-casing plus the `[^a-zA-Z0-9]` deletion, and its laws |
| similarity.dfy | Similarity | the score as an exact ratio, and `plagiarism_check` after parsing |

Modelling choices:

- **Statements.** A statement is a value:
  - `ClassDef`, `FunctionDef` and `AsyncFunctionDef` carry their name, their header and their body. The header is the rest of the declaration as text: decorators, bases or arguments, annotations.
  - `Import` carries its first name and the rest of the statement (aliases, further names) as text.
  - `ImportFrom` carries its optional module, its `level` (the number of leading dots) and the imported names as text.
  - The normaliser reads only the names it sorts by. It copies every header and text unchanged, so two scripts that differ in an argument, a base or an alias still normalise differently.
  - `StrExpr` is an expression statement that is only a string literal.
  - Every other statement is `Other`, with its text and the statements nested in it, so declarations inside an `if` or a `try` are still reached.
- **The walk.** `compare.py` rewrites node bodies in place while `ast.walk` visits the tree.
  - The model builds the rewritten tree as a new value instead.
  - `Normalizer.NormalizeBody` normalises children first (that makes termination structural).
  - `Formatter.FormatBody` rewrites a body first and then visits its statements: parent before children, as the walk does. The walk takes the children from the body before the rewrite, which holds the same classes and functions, only in another order and with docstrings besides.
  - `WalkOrderIrrelevant` shows the two orders agree.
- **Unparsing** is a parameter `unparse: Module -> string` of the score.

## Model

| member | source | states |
|---|---|---|
| Levenshtein.LevenshteinDistance | compare.py:16-43 | the table filled row by row returns the edit distance of the two strings; an empty string is at distance the other's length |
| Levenshtein.Min3 | compare.py:38 | `min(insert, delete, replace)` is at most each candidate and equal to one of them |
| Levenshtein.EditDistance | compare.py:23-41 | the table's recurrence: the first row and column count up, a match copies the diagonal, a mismatch takes one more than the least neighbour (EditDistanceIsTextbook, EditDistanceSymmetric, EditDistanceZeroIff, EditDistanceBounds) |
| Levenshtein.Distance | compare.py:16-43 | the bottom-right cell of the table, the value returned (DistanceIsTextbook, DistanceSymmetric, DistanceZeroIff, DistanceBounds) |
| Levenshtein.EditDistanceIsTextbook | compare.py:28-41 | copying the diagonal on a match (no insert/delete considered there) equals the textbook Levenshtein recurrence in every cell |
| Levenshtein.DistanceIsTextbook | compare.py:16-43 | the computed distance is the textbook Levenshtein distance |
| Levenshtein.EditDistanceSymmetric | compare.py:28-41 | the table of (s2, s1) is the transpose of the table of (s1, s2) |
| Levenshtein.DistanceSymmetric | compare.py:16-43 | distance(s1, s2) = distance(s2, s1) |
| Levenshtein.EditDistanceZeroIff | compare.py:28-41 | a cell is 0 exactly when the two prefixes are equal |
| Levenshtein.DistanceZeroIff | compare.py:16-43 | the distance is 0 if and only if the strings are equal |
| Levenshtein.EditDistanceBounds | compare.py:21-41 | every cell lies between the difference of the prefix lengths and the longer prefix length |
| Levenshtein.DistanceBounds | compare.py:16-43 | abs(m - n) <= distance <= max(m, n) |
| Levenshtein.EditDistanceAtMostMismatches | compare.py:35-41 | for strings of one length, the distance is at most the number of differing positions |
| Ascii.LowerChar | compare.py:48 | `lower()` on one ASCII character: upper-case letters map to their lower-case letter, everything else is unchanged |
| Ascii.Lower | compare.py:164 | `lower()` keeps the length and lower-cases character by character |
| Ascii.LowerAppend | compare.py:164 | lower-casing works piecewise over a concatenation |
| Ascii.LowerOfNoUpper | compare.py:164 | a text without upper-case letters is its own lower-cased form |
| SortKeys.StripUnderscores | compare.py:48 | `re.sub('_', '', s)` has no underscore and is no longer than s |
| SortKeys.StripUnderscoresMembers | compare.py:48 | the result holds exactly the characters of s other than `_` |
| SortKeys.StripUnderscoresAppend | compare.py:48 | removing underscores works piecewise over a concatenation |
| SortKeys.StripUnderscoresOfPlain | compare.py:48 | a string without underscores is left unchanged |
| SortKeys.NameKey | compare.py:55 | a name's key has neither underscores nor upper-case letters |
| SortKeys.NameKeyAppend | compare.py:48-55 | the key of a concatenation is the concatenation of the keys |
| SortKeys.NameKeyOfChar | compare.py:48-55 | a one-character name keys to nothing if it is `_`, otherwise to its lower-cased character |
| SortKeys.NameKeyIgnoresUnderscore | compare.py:48-55 | inserting an underscore anywhere in a name does not change its key |
| SortKeys.NameKeyIgnoresCase | compare.py:48-55 | a name and its lower-cased form have the same key |
| SortKeys.NameKeyOfPlain | compare.py:48-55 | a name with neither underscores nor upper-case letters is its own key |
| SortKeys.SortKey | compare.py:46-61 | the key of each declaration kind has neither underscores nor upper-case letters; a from-import without a module has key `""` |
| SortKeys.LexLe | compare.py:48 | Python's `not b < a` on strings: by code point, a proper prefix first (LexLeReflexive, LexLeTotal, LexLeAntisymmetric, LexLeTransitive) |
| SortKeys.LexLeReflexive | compare.py:48 | Python's string order is reflexive |
| SortKeys.LexLeTotal | compare.py:48 | any two keys are comparable |
| SortKeys.LexLeAntisymmetric | compare.py:48 | keys ordered both ways are equal |
| SortKeys.LexLeTransitive | compare.py:48 | the order is transitive |
| StableSort.Insert | compare.py:48 | the insertion step of `sorted`: x goes in front of the first statement whose key is not below its own (InsertMultiset, InsertSorted, InsertStable) |
| StableSort.SortByKey | compare.py:48 | `sorted(list, key=...)`: the unique key-ordered permutation that keeps equal keys in input order (SortMultiset, SortSorted, SortStable, SortCharacterized) |
| StableSort.SortMultiset | compare.py:48 | `sorted` returns a permutation of its input |
| StableSort.SortSorted | compare.py:48 | `sorted` returns a list ordered by key |
| StableSort.SortStable | compare.py:48 | for every key, the statements with that key keep their input order (stability) |
| StableSort.SortCharacterized | compare.py:48 | any list ordered by key that keeps every key's statements in input order is the result of `sorted` |
| StableSort.SortIdempotent | compare.py:48 | sorting a sorted list changes nothing |
| StableSort.SortSwapAdjacent | compare.py:48 | exchanging two adjacent statements with different keys does not change the sorted result |
| Normalizer.RemoveDocstrings | compare.py:66-73 | the loop keeps exactly the statements that are not standalone strings, in their order; the result holds no docstring and every other statement as often as the body |
| PyAst.Kind | compare.py:88-99 | the `type(...) ==` dispatch: each declaration type has its own bucket, and every other statement, docstrings included, falls to the last one (BucketsSnoc, DistributeByKind) |
| Normalizer.SortCurrentList | compare.py:46-63 | a declaration bucket stably sorted by key, the Other bucket as it is (SortCurrentListPermutes, SortCurrentListSorted, SortCurrentListStable) |
| Normalizer.SortCurrentListPermutes | compare.py:46-63 | `sort_current_list` returns a permutation of the bucket |
| Normalizer.SortCurrentListSorted | compare.py:46-61 | for every declaration kind, the bucket comes back ordered by key |
| Normalizer.SortCurrentListStable | compare.py:46-63 | statements that share a key keep their order; the Other bucket comes back unchanged |
| Normalizer.BucketsSnoc | compare.py:86-99 | each statement is appended to the list of exactly its own type |
| Normalizer.LexicographicallySortNames | compare.py:76-108 | the loop and concatenation produce the regrouped body: a permutation of the input, buckets in the order Import, ImportFrom, ClassDef, AsyncFunctionDef, FunctionDef, Other, and each bucket the sorted (or, for Other, unchanged) statements of that kind |
| Normalizer.DistributeByKind | compare.py:86-99 | the loop puts each statement into the list of its type and no other: each list ends as exactly the body's statements of that kind, in body order |
| Normalizer.Reordered | compare.py:101-106 | the six buckets concatenated in the fixed order, each in canonical order (ReorderedPermutation, ReorderedKindsOrdered, ReorderedBucket, ReorderedIdempotent) |
| Normalizer.BucketKinds | compare.py:86-99 | a bucket holds only statements of its kind |
| Normalizer.KindsPartition | compare.py:86-99 | the six lists together hold every statement of the body exactly once |
| Normalizer.ReorderedPermutation | compare.py:101-106 | the concatenated lists are a permutation of the body |
| Normalizer.ReorderedKindsOrdered | compare.py:101-106 | in the concatenation, every statement of a lower bucket precedes every statement of a higher one |
| Normalizer.ReorderedBucket | compare.py:101-106 | taking one kind out of the concatenation gives back that kind's sorted bucket; the Other statements keep their input order |
| Normalizer.ReorderedSpec | compare.py:76-108 | the three facts above together |
| Normalizer.ReorderedIdempotent | compare.py:76-108 | regrouping a regrouped body changes nothing |
| Normalizer.ReorderedSwap | compare.py:76-108 | exchanging two adjacent statements of different kinds, or two declarations of one kind with different keys, does not change the regrouped body |
| Normalizer.BucketSwap | compare.py:86-105 | the same exchange leaves every bucket unchanged |
| Normalizer.NormalizeEach | compare.py:140-146 | visiting the statements of a body keeps their number and normalises each in place |
| Normalizer.NormalizeStmt | compare.py:140-146 | a declaration with its body normalised, another statement with its nested statements normalised, everything else as it is (NormalizeStmtIdempotent, NormalizePreserves, Formatter.FormatStmt) |
| Normalizer.NormalizeBody | compare.py:140-146 | a body with docstrings dropped, regrouped, and every statement normalised (NormalBodyMembers, NormalBodyBucket, NormalizeBodyIdempotent, WalkOrderIrrelevant, Formatter.FormatBody) |
| Normalizer.NormalizeTree | compare.py:135-150 | the module with its body normalised: the tree `format_script` unparses (NormalizeTreeIdempotent, Formatter.FormatScript) |
| Normalizer.NormalizePreserves | compare.py:140-146 | normalising a statement's nested bodies keeps its kind, its sort key and whether it is a docstring |
| Normalizer.EachFilter | compare.py:140-146 | normalising nested bodies commutes with dropping docstrings and with taking a bucket |
| Normalizer.EachSort | compare.py:140-146 | normalising nested bodies commutes with the stable sort |
| Normalizer.EachReordered | compare.py:140-146 | normalising nested bodies commutes with regrouping |
| Normalizer.WalkOrderIrrelevant | compare.py:140-146 | rewriting a body before its children (as the walk does) gives the same result as rewriting children first |
| Normalizer.NormalBodyMembers | compare.py:140-146 | every statement of a normalised body is itself normalised and is no docstring |
| Normalizer.NormalBodyNoDocstrings | compare.py:140-146 | a normalised body holds no standalone string |
| Normalizer.NormalBodyKindsOrdered | compare.py:140-146 | a normalised body lists its buckets in the fixed order |
| Normalizer.NormalBodyBucket | compare.py:140-146 | each bucket of a normalised body is that kind's code statements; Other statements keep their order and each declaration bucket is ordered by key |
| Normalizer.NormalizeStmtIdempotent | compare.py:135-150 | normalising a normalised statement changes nothing |
| Normalizer.NormalizeBodyIdempotent | compare.py:135-150 | normalising a normalised body changes nothing |
| Normalizer.NormalizeTreeIdempotent | compare.py:135-150 | formatting a formatted tree changes nothing |
| Normalizer.DocstringInvariance | compare.py:140-146 | inserting a standalone string anywhere in a body does not change its normal form |
| Normalizer.DeclDocstringInvariance | compare.py:140-146 | inserting a standalone string anywhere in the body of a class or function does not change that declaration's normal form |
| Normalizer.NormalizeBodyCongruence | compare.py:140-146 | replacing one statement of a body by another with the same normal form does not change the body's normal form |
| Normalizer.NormalizeSwap | compare.py:140-146 | exchanging two adjacent statements of different kinds, or two declarations of one kind with different keys, does not change the body's normal form |
| Normalizer.SameKeyPairBucket | compare.py:48-61 | two declarations of one kind and one key form their bucket in input order, because the sort is stable |
| Normalizer.SameKeySwapVisible | compare.py:48-61 | in the body `[x, y]`, exchanging two declarations of one kind and one key changes the body's normal form whenever x and y have different normal forms |
| Normalizer.CaseVariantSwapVisible | compare.py:48-61 | `def f(a)` followed by `def F(b)` normalises differently from the reverse order, since both have key `f` |
| Invariance.Rearranged | compare.py:48-106 | one body is another rearranged: the last bucket in the same order, and for each declaration kind and key the declarations in the same order (ReorderedAgree) |
| Invariance.BucketAgree | compare.py:46-63 | one declaration bucket comes out the same for two bodies if and only if, for every key, the two bodies hold that bucket's declarations with that key in one order |
| Invariance.ReorderedAgree | compare.py:76-108 | two bodies regroup to the same list if and only if one is a rearrangement of the other |
| Invariance.EachRearranged | compare.py:140-146 | normalising nested bodies keeps a rearrangement a rearrangement |
| Invariance.RearrangedNormalizeBody | compare.py:135-150 | two bodies whose code statements are rearrangements of each other, with declarations and imports moved anywhere, have one normal form |
| Invariance.StripStmt | compare.py:140-146 | a statement with the docstrings of every class and function body inside it removed, at any depth; other nested statements visited but not filtered (StripStmtNormal) |
| Invariance.StripEach | compare.py:140-146 | StripStmt applied to each statement, keeping the length |
| Invariance.StripStmtNormal | compare.py:140-146 | removing the docstrings nested in a statement, at any depth, does not change its normal form |
| Invariance.StripEachNormal | compare.py:140-146 | the same for each statement of a list |
| Invariance.StripBodyNormal | compare.py:140-146 | a body without its own docstrings and those of every class and function inside it, at any depth, has the normal form of the body |
| Formatter.FormatStmt | compare.py:140-146 | visiting a statement rewrites exactly its nested bodies into canonical form |
| Formatter.FormatChildren | compare.py:140 | visiting the statements of a body in order normalises each of them |
| Formatter.FormatBody | compare.py:142-146 | `remove_docstrings`, then `lexicographically_sort_names`, then visiting the new body yields the canonical body |
| Formatter.FormatScript | compare.py:135-150 | the walk from the module root yields the canonical tree |
| CanonicalText.KeepAlnum | compare.py:164-165 | `re.sub(r'[^a-zA-Z0-9]', '', s)` is no longer than s and holds only characters of the class |
| CanonicalText.KeepAlnumMembers | compare.py:164-165 | the kept characters are exactly the characters of s in the class |
| CanonicalText.Canonical | compare.py:164-165 | the canonical text is no longer than the input and holds only lower-case letters and digits |
| CanonicalText.CanonicalAppend | compare.py:164-165 | the canonical text of a concatenation is the concatenation of the canonical texts |
| CanonicalText.CanonicalFixpoint | compare.py:164-165 | a text is its own canonical form if and only if it holds only lower-case letters and digits |
| CanonicalText.CanonicalIdempotent | compare.py:164-165 | canonicalising twice changes nothing |
| CanonicalText.CanonicalIgnoresSeparator | compare.py:164-165 | inserting a character that is not a letter or digit does not change the canonical text |
| CanonicalText.CanonicalIgnoresCase | compare.py:164-165 | a text and its lower-cased form have the same canonical text |
| Similarity.Score | compare.py:167-173 | the score is a fraction with positive denominator and at most 1, and it is 1 if and only if the two texts are equal |
| Similarity.ScoreSymmetric | compare.py:167-173 | the score does not depend on the order of the texts |
| Similarity.ScoreOfEmpty | compare.py:167-173 | an empty text against a non-empty one scores 0 |
| Similarity.ScoreLengthBound | compare.py:167-173 | the denominator is the longer length and the numerator at most the shorter length |
| Similarity.ScoreAtLeastAgreement | compare.py:167-173 | for texts of one length, the numerator is at least the length minus the number of differing positions |
| Similarity.PlagiarismCheck | compare.py:153-173 | formatting both trees, canonicalising the unparsed texts and running the dynamic programme yields the score of the two canonical texts, a fraction of at most 1 |
| Similarity.ScriptsScore | compare.py:161-173 | the score of the two canonical texts of the normalised trees (ScriptsScoreSymmetric, SameNormalFormFullScore, the full-score lemmas, PlagiarismCheck) |
| Similarity.ScriptsScoreSymmetric | compare.py:153-173 | comparing a with b scores the same as comparing b with a |
| Similarity.SameNormalFormFullScore | compare.py:153-173 | scripts with the same canonical tree score 1, whatever the unparser |
| Similarity.DocstringAddedFullScore | compare.py:153-173 | a copy that only adds a module-level docstring scores 1 |
| Similarity.NestedDocstringFullScore | compare.py:153-173 | a copy that only adds a docstring to the body of one module-level class or function scores 1 |
| Similarity.SwappedFullScore | compare.py:153-173 | a copy that exchanges two adjacent module-level statements of different kinds, or two declarations with different keys, scores 1 |
| Similarity.RearrangedFullScore | compare.py:153-173 | a copy whose top-level code is a rearrangement of the original, however far declarations and imports moved, scores 1 |
| Similarity.StrippedFullScore | compare.py:153-173 | a copy without the docstrings of the module and of every class and function, at any depth (methods included), scores 1 |

## Left out

- Command-line arguments, reading and writing files, and `main` (compare.py:6-13, 176-195): I/O. `PlagiarismCheck` takes the two parsed trees instead of two paths.
- `fix_some_syntax` (compare.py:111-132): regular-expression rewriting of the source text before parsing, outside the normalise-and-score core.
- `ast.parse` and `ast.unparse`: parsing is not modelled (the model starts from a tree), and unparsing is the parameter `unparse`. The full-score lemmas hold for every unparser because the two trees they compare are equal. They do not say how `ast.unparse` lays out a tree.
- Similarity.Score: returns the exact ratio. `round(..., 3)` and floating-point division are not modelled. In particular, texts longer than 2000 characters that differ in one place round to 1.0, while the exact ratio is below 1.
- Ascii.Lower: models `str.lower()` on ASCII only. Non-ASCII characters are left unchanged. In Python some of them lower-case to ASCII letters (the Kelvin sign becomes `k`), which could then survive the `[a-zA-Z0-9]` filter or change a sort key.
- In-place update of shared AST nodes: the walk is modelled on values, so aliasing between nodes is not modelled. The breadth-first order of `ast.walk` is replaced by a depth-first walk; `WalkOrderIrrelevant` shows that the visiting order does not change the result.
- Statement details that the normaliser never inspects are carried as opaque text and not given structure: decorators, bases, arguments and annotations (a declaration's `header`), import aliases (`rest`, `names`), and expressions. `Other` carries only a text and its nested statements.
- Similarity.SwappedFullScore: does not cover two declarations of one kind with one key (`def f` and `def F`, `a_b` and `ab`, two overloads of one name, two `from . import ...`, which both key as `""`). They are not exchangeable: the stable sort keeps their input order, so in the body `[x, y]` exchanging them changes the canonical tree whenever x and y have different normal forms (Normalizer.SameKeySwapVisible, Normalizer.CaseVariantSwapVisible). In general, two bodies regroup alike exactly when one is a rearrangement of the other that keeps these orders (Invariance.ReorderedAgree). Statements of the last bucket keep their order for the same reason.
- SortKeys.SortKey is defined per statement variant. In the source, the key lambda is chosen by the bucket type; the two agree because a bucket only ever holds statements of its own type (Normalizer.BucketKinds).
- The check `isinstance(node.value, ast.Str)` is modelled as the `StrExpr` variant. A bytes literal or other constant used as a statement is an `Other`.
