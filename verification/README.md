# startsWith: a verified model of the CSS string prefix test

This project models `startsWith(haystack, needle)` from the CSS utilities of
coc.nvim. The function decides whether `needle` is a prefix of `haystack`.
It returns `false` straight away when the needle is longer than the haystack.
Otherwise it walks the needle one index at a time and returns `false` at the
first position where the two strings differ. If every position matches it
returns `true`.

The model lives in `strings.dfy`, module `Strings`:

- `CodeUnit` is a 16-bit UTF-16 code unit, and `JsString` is `seq<CodeUnit>`.
- `IsPrefix(haystack, needle)` is the specification:
  `|needle| <= |haystack| && haystack[..|needle|] == needle`.
- `PrefixRec` is an independent, recursive reference definition of the same
  relation.
- `FirstMismatch` gives the index at which the comparison loop stops.
- `StartsWith` is a method that mirrors the source. It has the same length
  guard, the same index loop and the same early returns. It is proved against
  `IsPrefix`.
- Lemmas state the consequences the function's callers rely on.

JavaScript indexes strings by UTF-16 code unit. A string is modelled as a
sequence of `CodeUnit`, any value from 0 to 0xFFFF, with one element per code
unit. Lone surrogates are ordinary elements, as they are in JavaScript.
Every member takes its arguments in the source's order: haystack, then needle. Strings are immutable values, and
so are Dafny sequences. `StartsWith` therefore has no `modifies` clause and
cannot change either argument. The loop's invariant keeps
`0 <= i <= |needle| <= |haystack|`, so every `haystack[i]` the loop reads is
in bounds.

## Model

| member | source | states |
|---|---|---|
| `Strings.StartsWith` | src/css/utils/strings.ts:2-14 | the result is true exactly when the needle is a prefix of the haystack (`IsPrefix`); when the guard passes, the ghost index at which it returned is `FirstMismatch`, so the loop returns at the first mismatch; the loop invariant says that every index below `i` matches |
| `Strings.IsPrefixPointwise` | src/css/utils/strings.ts:3-13 | being a prefix is the same as `|needle| <= |haystack|` plus `haystack[k] == needle[k]` for every `k < |needle|`, in both directions |
| `Strings.PrefixRec` | src/css/utils/strings.ts:3-13 | the recursive reference definition: a string that is a prefix is never longer than the haystack |
| `Strings.FirstMismatch` | src/css/utils/strings.ts:7-11 | the index where the loop stops: every code unit below it matches, it is at most `|needle|`, and below `|needle|` it is a position where the code units differ |
| `Strings.IsPrefixIffNoMismatch` | src/css/utils/strings.ts:7-13 | the answer is true exactly when the loop reaches the end of the needle without a mismatch |
| `Strings.PrefixRecIsPrefix` | src/css/utils/strings.ts:7-13 | the recursive, one-code-unit-at-a-time definition agrees with the slice-based specification for all inputs |
| `Strings.LongerNeedleIsNotPrefix` | src/css/utils/strings.ts:3-5 | a needle longer than the haystack is never a prefix, so the early guard's `false` is correct |
| `Strings.EmptyNeedleIsPrefix` | src/css/utils/strings.ts:7-13 | the empty needle is a prefix of every haystack: the loop body never runs and the result is `true` |
| `Strings.IsPrefixReflexive` | src/css/utils/strings.ts:7-13 | every string starts with itself |
| `Strings.MismatchIsNotPrefix` | src/css/utils/strings.ts:8-10 | one index inside both strings where the code units differ makes the answer `false`, as the loop's early return does |
| `Strings.ExtendHaystack` | src/css/utils/strings.ts:3-13 | appending any text to the haystack keeps a true answer true |
| `Strings.SurrogatePrefix` | src/css/utils/strings.ts:3-13 | a lone high surrogate is a prefix of the two-code-unit string it starts, since the comparison is per code unit |

## Left out

- Unicode semantics beyond code units: a surrogate pair is two elements and is never treated as one character, as in the source's indexing.
- `src/source/service/gocode.ts` is not part of this model. It runs an external completion process: it searches `$PATH`, spawns the process, collects its output, parses JSON, kills the process after a timeout and writes the buffer to its stdin. All of that is process I/O. Its only pure step drops a trailing `(` from each item's word and appends to its menu, and it sits inside the process's exit callback.
- The snippet manager (`src/snippets/manager`, which `src/__tests__/modules/snippetManager.test.ts` drives over Neovim RPC) is a separate component. This model covers only `startsWith`.
