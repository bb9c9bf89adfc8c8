# wpylib core in Dafny

wpylib is a collection of small Python utility modules for scientific work.
This project models the parts of it whose behaviour is discrete, integer or
sequence logic, and proves what those parts promise. Each source file has one
Dafny module in a flat file of its own:

| Dafny module | file | source |
|---|---|---|
| `SymmetricIndex` | symmetric_index.dfy | math/symmetrix-array-index.PY |
| `RngLcg48` | lcg48.dfy | math/random/rng_lcg48.py |
| `ParamsFlat` | params_flat.dfy | params/params_flat.py |
| `FortranBinary` | fortbin.dfy | iofmt/fortbin.py |
| `TextInput` | text_input.dfy | iofmt/text_input.py |
| `FileUtils` | file_utils.dfy | file/file_utils.py |
| `Jackknife` | jackknife.dfy | math/stats/jackknife1.py |
| `FuncsPoly` | funcs_poly.dfy | math/fitting/funcs_poly.py |
| `DatetimeIdt` | datetime_idt.dfy | datetime0_idt.py |
| `FileDb` | file_db.dfy | db/file_db.py |
| `Generators` | generators.dfy | generators.py |
| `Sugar` | sugar.dfy | sugar.py |
| `Debugging` | debugging.dfy | debugging.py |
| `ArrayTools` | array_tools.dfy | array_tools.py |
| `Introspection` | introspection.dfy | py/introspection.py |
| `Spline2d` | spline2d.dfy | math/spline_2d.py |

The shared modules are these:

- `Wrappers`: `Option`, `Result` and the Python exception kinds as `Error`.
- `PyValue`: the Python values that flow through parameters, options and namespaces.
- `Arith`: small division lemmas.
- `Decimal`: `str`/`int` of integers and `%0Nd` formatting.
- `Strings`: Python's string order and `sorted`.
- `MixedRadix`: the numbering shared by `path_search` and `all_combinations`.

Python exceptions are modelled as `Err` results of the matching kind.
Python integers are unbounded, as Dafny's are. Python's `//`, `%`, `&` with a
positive mask and `>>` on the integers involved agree with Dafny's Euclidean
`/` and `%`. Floats appear only as opaque `real` payloads and are never computed with.

The code is imperative where the source is. The following are classes with
`modifies` clauses:

- the generator `lcg48`;
- the parameter object `Parameters`;
- the pushback wrapper `super_file`;
- the record reader `fortran_bin_file`;
- the line reader `text_input`;
- the spline containers.

Arrays are Dafny arrays where numpy allocates them:

- the jackknife datasets;
- `copy_over_array`;
- the `Cmat` packing.

The loops of the source are methods with loop invariants. Each is proved
against a specification function, and that function's properties are
proved as lemmas.

## Model

| member | source | states |
|---|---|---|
| SymmetricIndex.ISqrt | math/symmetrix-array-index.PY:85-98 | the exact integer square root used for the loop-free decoders: `r*r <= x < (r+1)^2` |
| SymmetricIndex.JSkip1IsColumnsBefore | math/symmetrix-array-index.PY:193-212 | the closed-form column offset `(jj-1)N - (jj-2)(jj-1)/2` of `LD1` is the number of lower-triangle entries in the columns left of `jj` |
| SymmetricIndex.JSkip0IsColumnsBefore | math/symmetrix-array-index.PY:172-191 | the 0-based offset of `LD` is the 1-based offset of the next column |
| SymmetricIndex.ColumnsBeforeEnd | math/symmetrix-array-index.PY:143-169 | all N columns together hold N(N+1)/2 entries |
| SymmetricIndex.JSkip1Step | math/symmetrix-array-index.PY:193-212 | moving one column right skips the N+1-j entries of column j |
| SymmetricIndex.LDFromLD1 | math/symmetrix-array-index.PY:172-212 | for every pair, `LD(i,j,N) == LD1(i+1,j+1,N) - 1` |
| SymmetricIndex.LD1Symmetric | math/symmetrix-array-index.PY:193-212 | swapping the arguments does not change the code, because the pair is ordered first |
| SymmetricIndex.LD1RangeInjective | math/symmetrix-array-index.PY:193-212 | on the triangle 1 <= j <= i <= N the code lies in 1..N(N+1)/2 and distinct pairs get distinct codes |
| SymmetricIndex.LD1ColumnBounds | math/symmetrix-array-index.PY:193-212 | column j uses exactly the codes after its offset and up to the next column's offset |
| SymmetricIndex.LD1Onto | math/symmetrix-array-index.PY:143-169 | every code 1..N(N+1)/2 belongs to some pair of the triangle, so with injectivity `LD1` is a bijection |
| SymmetricIndex.LDGenerateRefMapping | math/symmetrix-array-index.PY:143-169 | the reference dict has exactly the pairs 1 <= j <= i <= N as keys, and the running counter gives each pair its `LD1` code |
| SymmetricIndex.LDdecFound | math/symmetrix-array-index.PY:215-230 | the column where the `LDdec` loop stops holds the code, at row `ij - jskip + j` |
| SymmetricIndex.LDdec | math/symmetrix-array-index.PY:215-230 | succeeds exactly when N >= 1 and ij < N(N+1)/2, otherwise ValueError; a negative ij gives (ij, 0); a valid ij gives a pair 0 <= jj <= ii < N whose `LD` is ij |
| SymmetricIndex.LDdec1Found | math/symmetrix-array-index.PY:232-247 | the column where the `LDdec1` loop stops holds the code |
| SymmetricIndex.LDdec1 | math/symmetrix-array-index.PY:232-247 | succeeds exactly when N >= 1 and ij <= N(N+1)/2, otherwise ValueError; ij < 1 gives (ij, 1); a valid ij gives a pair 1 <= jj <= ii <= N whose `LD1` is ij |
| SymmetricIndex.LDdec1V2Correct | math/symmetrix-array-index.PY:249-262 | with an exact square root, the loop-free decoder turns every valid code into the pair of the triangle that encodes it (the guess bound j <= j_guess <= j+1 derived in the source's docstring, math/symmetrix-array-index.PY:74-98) |
| SymmetricIndex.LDEncDecAgree | math/symmetrix-array-index.PY:319-342 | for every pair of the triangle, both the loop decoder and the loop-free decoder return the encoded pair |
| SymmetricIndex.LDEncDec | math/symmetrix-array-index.PY:266-273 | for every 0-based pair, decoding its `LD` code gives (max(i,j), min(i,j)) |
| SymmetricIndex.LDRange | math/symmetrix-array-index.PY:172-191 | `LD` of a pair of the 0-based triangle lies in 0..N(N+1)/2-1 |
| SymmetricIndex.LDLast | math/symmetrix-array-index.PY:172-191 | the last diagonal entry takes the last code |
| SymmetricIndex.CopyOverArray | math/symmetrix-array-index.PY:116-129 | a negative N raises ValueError; otherwise the call succeeds exactly when the packed vector has N(N+1)/2 entries or more (IndexError if not); entry (i, j) with j <= i is `arr_L[LD(i,j,N)]` and every entry above the diagonal stays 0 |
| SymmetricIndex.UDAsWrittenNotSymmetric | math/symmetrix-array-index.PY:439-456 | the encoders as written give a pair and its swap different codes: `UD(1,0,2) == -1` but `UD(0,1,2) == 1`, and the same for `UD1` |
| SymmetricIndex.UDFixed | math/symmetrix-array-index.PY:439-456 | the corrected encoder agrees with `UD` above the diagonal and gives a pair below it the code of its swap |
| SymmetricIndex.UD1Fixed | math/symmetrix-array-index.PY:475-489 | the same for the 1-based `UD1` |
| SymmetricIndex.UD1ColumnBounds | math/symmetrix-array-index.PY:475-489 | above the diagonal, column j holds the codes Tri(j-1)+1..Tri(j), and `UD1(i,j) == i + j(j-1)/2` |
| SymmetricIndex.UD1RangeInjective | math/symmetrix-array-index.PY:475-489 | on 1 <= i <= j <= N the code lies in 1..N(N+1)/2 and distinct pairs get distinct codes |
| SymmetricIndex.UDFromUD1 | math/symmetrix-array-index.PY:439-456 | for i <= j, `UD(i,j,N) == UD1(i+1,j+1,N) - 1` |
| SymmetricIndex.UDGenerateRefMapping | math/symmetrix-array-index.PY:410-436 | the reference dict has exactly the pairs 1 <= i <= j <= N as keys, each mapped to its `UD1` code |
| SymmetricIndex.UDdec | math/symmetrix-array-index.PY:458-472 | returns a pair exactly when N >= 1 and ij < N(N+1)/2, and None when the loop falls through; a negative ij gives (ij, 0); a valid ij gives 0 <= ii <= jj < N whose `UD` is ij |
| SymmetricIndex.UDdec1 | math/symmetrix-array-index.PY:491-510 | succeeds exactly when N >= 1 and ij <= N(N+1)/2, otherwise ValueError; ij < 1 gives (ij, 1); a valid ij gives 1 <= ii <= jj <= N whose `UD1` is ij |
| SymmetricIndex.UDdec1SqrtCorrect | math/symmetrix-array-index.PY:513-543 | with an exact square root, both loop-free decoders `_v2` and `_v3` give, for every positive code, a pair above the diagonal that encodes it |
| SymmetricIndex.UDSqrtGuess | math/symmetrix-array-index.PY:513-527 | a column guess s with s*s <= 2ij+1 and 2ij < (s+1)^2 leads to the pair that encodes ij |
| SymmetricIndex.UDEncDecAgree | math/symmetrix-array-index.PY:557-587 | for every pair of the upper triangle, the loop decoder and both loop-free decoders return the encoded pair |
| SymmetricIndex.UD1Unique | math/symmetrix-array-index.PY:475-489 | above the diagonal, a `UD1` code determines its pair whatever N is |
| SymmetricIndex.UDEncDec | math/symmetrix-array-index.PY:546-555 | for every 0-based pair with i <= j, decoding the `UD` code gives the pair back |
| SymmetricIndex.UDFixedEncDec | math/symmetrix-array-index.PY:546-555 | with the corrected encoder, the round trip holds for every pair, giving (min, max) |
| SymmetricIndex.LDCGenerateRefMapping | math/symmetrix-array-index.PY:637-664 | the row-by-row reference dict has exactly the pairs 0 <= j <= i < N as keys, each mapped to `i(i+1)/2 + j` |
| SymmetricIndex.LDCRangeInjective | math/symmetrix-array-index.PY:637-664 | the row-by-row numbering is one-to-one on the triangle and stays below N(N+1)/2 |
| RngLcg48.Draw | math/random/rng_lcg48.py:28-34 | the returned value is always strictly between 0 and 1, and is L/2^48 for a non-zero state |
| RngLcg48.SeedLibIndexed | math/random/rng_lcg48.py:100-206 | the library has 103 entries; entry 0 is empty and every entry k in 1..102 is a triple whose seed index is k |
| RngLcg48.SeedLibAIndexed | math/random/rng_lcg48.py:100-206 | entries 1..25 of the first block carry their own index |
| RngLcg48.SeedLibBIndexed | math/random/rng_lcg48.py:100-206 | entries 26..51 carry their own index |
| RngLcg48.SeedLibCIndexed | math/random/rng_lcg48.py:100-206 | entries 52..77 carry their own index |
| RngLcg48.SeedLibDIndexed | math/random/rng_lcg48.py:100-206 | entries 78..102 carry their own index |
| RngLcg48.ListItem | math/random/rng_lcg48.py:43-45 | Python list indexing of the library: indices -len..len-1 succeed, negative ones counting from the end; others raise IndexError |
| RngLcg48.Lcg48.constructor | math/random/rng_lcg48.py:19-27 | the class defaults: multiplier 11^13, L = 127, n = 11863279, seed index 1 |
| RngLcg48.Lcg48.Call | math/random/rng_lcg48.py:28-34 | one step `L := (m*L + n) mod 2^48`; returns `Draw(L)`, which lies in (0, 1); m, n and the seed index are unchanged |
| RngLcg48.Lcg48.UpdateSeed | math/random/rng_lcg48.py:35-42 | a pair sets (L, n) and clears the seed index; a triple sets (seed index, L, n); any other length raises TypeError and changes nothing; m is never touched |
| RngLcg48.Lcg48.UseSeedLib | math/random/rng_lcg48.py:43-45 | m is reset to 11^13 before the lookup; the call succeeds exactly for indices 1..102 and -102..-1; index k in 1..102 loads entry k and a negative index loads entry 103+index, with that seed index; an index out of list range raises IndexError; 0 or -103 (the empty entry) raises TypeError; on any error L, n and the seed index are unchanged |
| RngLcg48.NewRannyuAsWritten | math/random/rng_lcg48.py:51-54 | as written: with no seed the constructor raises NameError; a given seed behaves as in `use_seed_lib`: success exactly for 1..102 and -102..-1, entry k or 103+k loaded, TypeError for 0 or -103, IndexError otherwise |
| RngLcg48.NewRannyu | math/random/rng_lcg48.py:51-54 | with the random draw passed in, no seed selects entry draw+1, which is always in 1..102; a given seed goes to `use_seed_lib`: it succeeds exactly for 1..102 and -102..-1, a seed k in 1..102 loads entry k and a negative seed loads entry 103+seed, 0 or -103 raise TypeError and any other seed raises IndexError; the multiplier is 11^13 |
| RngLcg48.Mkint48Range | math/random/rng_lcg48.py:83-86 | four 12-bit parts join to a 48-bit number |
| RngLcg48.Mkint48Injective | math/random/rng_lcg48.py:83-86 | different 12-bit part tuples join to different numbers |
| RngLcg48.Split48 | math/random/rng_lcg48.py:89-99 | the parts are 12-bit values, most significant first, that join back to the low 48 bits of the input |
| RngLcg48.SplitLow48 | math/random/rng_lcg48.py:89-99 | the four masked digits peeled off by the shifts join to the value modulo 2^48 |
| RngLcg48.JoinOfSplit | math/random/rng_lcg48.py:83-99 | `mkint48(split48(v)) == v` for every 48-bit v |
| RngLcg48.SplitOfJoin | math/random/rng_lcg48.py:83-99 | `split48(mkint48(N)) == N` when every part is below 4096 |
| ParamsFlat.Lookup | params/params_flat.py:196-203 | the result is the value in the first scope that answers for the key (has it, and in the skip-None mode holds a value other than None), and nothing exactly when no scope answers |
| ParamsFlat.SkipNoneAgrees | params/params_flat.py:188-203 | a value other than None found in the plain mode is found in the skip-None mode too |
| ParamsFlat.FirstScopeWins | params/params_flat.py:196-203 | an answering entry of the first scope (the object's own entries) answers every lookup of its key |
| ParamsFlat.TwoScopes | params/params_flat.py:196-203 | with two scopes the second is consulted only when the first does not answer |
| ParamsFlat.Present | params/params_flat.py:148-155 | the supplied dicts other than None, and only those |
| ParamsFlat.Parameters.constructor | params/params_flat.py:93-162 | the keyword options without the reserved names become the own entries; the supplied dicts are kept in order with None dropped; `_kwparam_`, `_userparam_` and `_no_null_` take their option values or the defaults "_opts_", "_p" and False |
| ParamsFlat.Parameters.Find | params/params_flat.py:196-202 | the scan over `_list_` returns what `Lookup` specifies |
| ParamsFlat.Parameters.GetItem | params/params_flat.py:196-203 | the first answering scope's value, or KeyError when no scope answers |
| ParamsFlat.Parameters.GetAttr | params/params_flat.py:170-183 | a name the ordinary attribute lookup finds (the instance attributes set in `__init__`, the class's members, the inherited dict methods) gives that attribute and never a parameter; any other name gives the first answering scope's value, or AttributeError when no scope answers |
| ParamsFlat.ShadowedByDictMethod | params/params_flat.py:136-141 | for `Parameters(dict(keys=1))`, item access gives the parameter 1 while attribute access gives the inherited `keys` method: the loop meant to hide the dict methods scans the instance `__dict__`, which does not hold them |
| ParamsFlat.Parameters.Contains | params/params_flat.py:188-195 | true exactly when `__getitem__` succeeds, in both modes |
| ParamsFlat.Parameters.SetAttr | params/params_flat.py:184-187 | the value lands in the own entries only; the supplied dicts and options are unchanged; when the own entry answers, lookups of that key now return the new value |
| ParamsFlat.Parameters.Update | params/params_flat.py:217-222 | the own entries become the old ones overridden by `srcdict`; nothing else changes |
| ParamsFlat.Parameters.Copy | params/params_flat.py:163-169 | a fresh object with the same supplied dicts, options and own entries; an own entry named `_no_null_`, `_kwparam_` or `_userparam_` collides with the keyword arguments and raises TypeError |
| ParamsFlat.Parameters.Add | params/params_flat.py:223-228 | a fresh copy whose own entries are then overridden by `srcdict`, with the same supplied dicts and the same `_no_null_`, `_kwparam_` and `_userparam_` options; the original keeps its own entries; the colliding own names of `_copy_` raise TypeError |
| ParamsFlat.SomeAll | params/params_flat.py:148-155 | dicts passed as present all survive the None filter |
| ParamsFlat.Example | params/params_flat_test.py:7-19 | `Parameters(defaults, nbasis=332)` gives nbasis 332 from the override and npart 37 and deltau 0.025 from the defaults; after `p.deltau = 0.01` deltau reads 0.01 |
| ParamsFlat.ExampleObject | params/params_flat_test.py:7-12 | the search order of the example object is the override dict, then the defaults |
| FortranBinary.Items | iofmt/fortbin.py:66-75 | a read of `count` items of `size` bytes gives `count` items of that size |
| FortranBinary.Available | iofmt/fortbin.py:66-75 | numpy.fromfile gets at most the requested number of items, all inside the data |
| FortranBinary.AvailableAll | iofmt/fortbin.py:66-75 | when the whole request fits in the data, every requested item is read |
| FortranBinary.OffsetMonotone | iofmt/fortbin.py:45-46 | the byte offset of a later descriptor is not smaller |
| FortranBinary.StoreFieldsAt | iofmt/fortbin.py:66-75 | fields are laid out contiguously after the header: with distinct names, field k is stored under its name and holds the bytes starting at the sum of the sizes of the fields before it |
| FortranBinary.Record.constructor | iofmt/fortbin.py:53-56 | a new result starts as an empty dict |
| FortranBinary.FortranBinFile.constructor | iofmt/fortbin.py:19-27 | the reader starts at the first byte of the file |
| FortranBinary.FortranBinFile.ReadMarker | iofmt/fortbin.py:43 | a 4-byte record marker is read and the position advances by 4; at end of file nothing is read |
| FortranBinary.FortranBinFile.ReadField | iofmt/fortbin.py:66-75 | when its bytes are present, one descriptor stores `ValueAt` under its name and advances by count times item size |
| FortranBinary.FortranBinFile.ReadFields | iofmt/fortbin.py:66-75 | when the record and its trailer are present, the loop stores every field in order, reading contiguously, and advances by the expected length |
| FortranBinary.FortranBinFile.Read | iofmt/fortbin.py:28-88 | no header at end of file raises TypeError; an expected length above the header length raises IOError before any field is read; otherwise the fields are stored in order, the unread tail is skipped, the position ends 4 + reclen + 4 bytes later, and the call succeeds exactly when the trailer equals the header; with `out`, that object is filled and returned |
| TextInput.BeforeHashSpec | iofmt/text_input.py:88 | `line.split("#")[0]` is a prefix of the line without `#`, ending at the first `#` when it is not the whole line |
| TextInput.RStripSpec | iofmt/text_input.py:97 | `rstrip()` keeps a prefix that does not end in whitespace and drops only whitespace |
| TextInput.Word | iofmt/text_input.py:88 | a field is the longest prefix without whitespace |
| TextInput.Fields | iofmt/text_input.py:88 | `split()`: the fields are non-empty and hold no whitespace |
| TextInput.FieldsKeepText | iofmt/text_input.py:88 | the fields together are exactly the non-whitespace text of the line, in order |
| TextInput.FieldsEmptyIffBlank | iofmt/text_input.py:85-99 | a line has no fields exactly when its right-stripped text is empty, so `next_rec` and `next_line` skip the same lines |
| TextInput.NextKept | iofmt/text_input.py:89-90 | the next line that is handed out, or the end; the line at that index is kept |
| TextInput.NextKeptSkips | iofmt/text_input.py:98-99 | every line before it is skipped, which happens only to blank lines when `skip_blank_lines` is set |
| TextInput.NextMatch | iofmt/text_input.py:121-124 | the next handed-out line whose text satisfies the matcher, or the end |
| TextInput.NextMatchSkips | iofmt/text_input.py:121-124 | no line before it is both handed out and matching |
| TextInput.MatchViaKept | iofmt/text_input.py:121-124 | the next match is the next kept line if it matches, otherwise the next match after it |
| TextInput.NormalizeColumn | iofmt/text_input.py:204-215 | an int, a 1-tuple or a 2-tuple get the name "f" + position, a 3-tuple (col, type, name) names itself; a specification without length raises TypeError and one of any other length ValueError |
| TextInput.FirstBadColumn | iofmt/text_input.py:204-215 | the first specification that does not normalise, every earlier one normalising |
| TextInput.DefaultNamesDistinct | iofmt/text_input.py:206-210 | default names of different positions differ |
| TextInput.ReadItemsColumns | iofmt/text_input.py:204-215 | succeeds exactly when every specification normalises, returning them in order; otherwise the error of the first bad one |
| TextInput.FirstBadOption | iofmt/text_input.py:230-238 | the first option whose name is not `skip_blank_lines` |
| TextInput.FirstBadOptionAt | iofmt/text_input.py:230-238 | characterises that index by the names before and at it |
| TextInput.TextInput.constructor | iofmt/text_input.py:44-60 | without options, `next` is bound to `next_line`, blank lines are skipped, no errorbar hook is set and `lineno` is 0 |
| TextInput.TextInput.ReadLine | iofmt/text_input.py:87 | `file.next()`: the next line and one line further, or StopIteration at the end |
| TextInput.TextInput.NextRec | iofmt/text_input.py:83-90 | returns the fields of the text before `#` of the next kept line and stops just after it, or StopIteration at the end; `lineno` grows by one per line read plus one for the read that fails at the end |
| TextInput.TextInput.NextLine | iofmt/text_input.py:92-99 | the same with the right-stripped text before `#` |
| TextInput.TextInput.SetNextProc | iofmt/text_input.py:101-102 | rebinds what `next` calls and nothing else |
| TextInput.TextInput.Next | iofmt/text_input.py:103-104 | whichever procedure is bound, with its result, position and line count |
| TextInput.TextInput.SeekText | iofmt/text_input.py:106-124 | returns the text of the first following kept line that satisfies the matcher, consuming every line before it, or StopIteration at the end; with no matcher, the first line read raises TypeError; `lineno` counts every line read, plus one for a read that fails at the end |
| TextInput.TextInput.SeekMatch | iofmt/text_input.py:121-124 | the loop with a matcher: stops just after the first handed-out line that matches and returns its text, every line before it being read and counted |
| TextInput.TextInput.SetOptions | iofmt/text_input.py:230-238 | options named `skip_blank_lines` set the flag in order; the first other name raises TypeError, after switching the errorbar flag if it is `expand_errorbar` |
| TextInput.Open | iofmt/text_input.py:44-60 | succeeds exactly when every option is `skip_blank_lines` or a truthy `superize`, otherwise TypeError; the new reader starts at the first line with `lineno` 0, `next` bound to `next_line`, the errorbar expansion off, and `skip_blank_lines` set to the value given, or True when none is |
| TextInput.RemoveSuperize | iofmt/text_input.py:45-49 | the options without a truthy `superize` |
| FileUtils.SuperFile.constructor | file/file_utils.py:42-45 | an empty pushback in front of the wrapped iterator, whose items come next |
| FileUtils.SuperFile.Next | file/file_utils.py:52-56 | pops the most recently pushed item if there is one, and only otherwise reads the wrapped object; the item is the head of the stream, StopIteration exactly when the stream is empty |
| FileUtils.SuperFile.Push | file/file_utils.py:57-58 | the pushed item is put in front of the stream |
| FileUtils.PushThenNext | file/file_utils.py:52-58 | `push(s)` then `next()` returns s and leaves the wrapper as it was |
| FileUtils.Reversed | file/file_utils.py:52-58 | the pushback stack read from the top |
| FileUtils.Parts | file/file_utils.py:133-139 | one chosen part per spec |
| FileUtils.JoinRightIsJoin | file/file_utils.py:132-138 | with no empty part, building the path from the last part to the first is joining the parts in spec order with `pathsep` |
| FileUtils.FirstFound | file/file_utils.py:127-143 | the first candidate number that passes the test, or the number of candidates |
| FileUtils.PathSearch | file/file_utils.py:97-148 | returns the first candidate, in mixed-radix order with the first part varying fastest, that passes the file test; when none does, None, or ValueError with `raise_error` |
| FileUtils.Tabulate | file/file_utils.py:117-125 | the alternatives, their counts, the strides (products of the counts before) and the total |
| FileUtils.BuildCandidate | file/file_utils.py:128-139 | peeling the digits off by stride builds candidate number idx |
| FileUtils.CompressionFlag | file/file_utils.py:164-169 | at most one compression switch |
| FileUtils.CompressionFlagSuffixes | file/file_utils.py:164-169 | gzip names get `-z`, `.tbz2` gets `-j`, `.tza` gets the lzma program, and an archive without a switch has no such suffix |
| FileUtils.UntarArgv | file/file_utils.py:151-177 | the argument vector: `tar`, `-C subdir` if given, the compression switch, one `-v` per verbosity level, `-xf archive`, then the files |
| FileUtils.VerboseFlags | file/file_utils.py:171-172 | one `-v` per level, none for a level of 0 or less |
| FileUtils.GlobFiles | file/file_utils.py:85-94 | an iterable comes back unchanged and unsorted; a pattern gives the matched names sorted; anything else raises TypeError |
| Jackknife.Deleted | math/stats/jackknife1.py:66-67 | one element shorter, the prefix unchanged and the suffix shifted down by one |
| Jackknife.DeletedReinsert | math/stats/jackknife1.py:54-68 | putting the deleted point back where it was restores the dataset |
| Jackknife.SelectDataset | math/stats/jackknife1.py:54-68 | i outside 0 <= i < N fails the assertion; otherwise a fresh array holding the input without element i |
| Jackknife.GenerateDatasets | math/stats/jackknife1.py:70-83 | a fresh N x (N-1) array whose row i is the input without element i; N == 0 raises ValueError |
| Jackknife.Reconstruct | math/stats/jackknife1.py:158-162 | entries 1..N-1 come from row 0 and entry 0 from the first entry of row 1; a single row raises IndexError |
| Jackknife.RowsRecoverDataset | math/stats/jackknife1.py:158-162 | for N >= 2, the first entry of row 1 followed by row 0 is the dataset |
| Jackknife.RoundTrip | math/stats/jackknife1.py:70-83 | generating the datasets and reconstructing gives the original values for N >= 2 and fails otherwise |
| FuncsPoly.Dim | math/fitting/funcs_poly.py:33-39 | `dim` is the length of `xdata` if given, else `ndim`, else ValueError |
| FuncsPoly.InitAsWritten | math/fitting/funcs_poly.py:33-40 | as written: a missing `dim` raises ValueError, a non-empty `ydata` raises NameError, an empty one leaves no guess |
| FuncsPoly.GuessAsWritten | math/fitting/funcs_poly.py:41-44 | as written: always NameError |
| FuncsPoly.NoGuessAsWritten | math/fitting/funcs_poly.py:33-44 | the code as written never produces a guess |
| FuncsPoly.Guess | math/fitting/funcs_poly.py:41-44 | the mean of ydata for the constant, zero for the rest, one entry per parameter |
| FuncsPoly.InitGuessAsWritten | math/fitting/funcs_poly.py:40 | the guess built in `__init__` has 1 + order*dim entries |
| FuncsPoly.InitGuessMismatch | math/fitting/funcs_poly.py:96-98 | for the cross-term polynomial with dim 1 that is 3 entries against `NParams` 2 |
| FuncsPoly.InitGuessAgrees | math/fitting/funcs_poly.py:40-47 | for the kinds without cross terms it equals `Guess` |
| FuncsPoly.Init | math/fitting/funcs_poly.py:33-40 | corrected `__init__`: ValueError exactly when `dim` is missing; a guess exactly when ydata is non-empty, with `NParams` entries and the mean first |
| FuncsPoly.CallIndicesAreRange | math/fitting/funcs_poly.py:50-117 | `__call__` without cross terms reads each coefficient 0..order*dim exactly once, in order |
| FuncsPoly.CallIndicesMatchNParams | math/fitting/funcs_poly.py:59-66 | so each kind without cross terms reads exactly `NParams` coefficients, the squares-only kind with its order set to 1 included |
| FuncsPoly.RowStartTotal | math/fitting/funcs_poly.py:81-86 | the running index after the last row is 1 + dim + dim(dim-1)/2 |
| FuncsPoly.UpperIndexRange | math/fitting/funcs_poly.py:81-98 | the off-diagonal positions take the indices dim+1..NParams-1 |
| FuncsPoly.UpperIndexInjective | math/fitting/funcs_poly.py:81-86 | distinct off-diagonal positions take distinct coefficients |
| FuncsPoly.UpperIndexOnto | math/fitting/funcs_poly.py:81-98 | every index dim+1..NParams-1 fills some off-diagonal position |
| FuncsPoly.Layout4 | math/fitting/funcs_poly.py:75-79 | the 4 x 4 layout drawn in the comment |
| FuncsPoly.PackCmat | math/fitting/funcs_poly.py:80-86 | `Cmat` is a fresh dim x dim array whose diagonal is C[1..dim] and whose off-diagonal pair (r, c) holds the row-by-row coefficient on both sides; the running index ends at `NParams` |
| FuncsPoly.PackRow | math/fitting/funcs_poly.py:82-86 | one pass of the loop fills the next row and keeps the rows before |
| FuncsPoly.FillRow | math/fitting/funcs_poly.py:84-85 | row r right of the diagonal and column r below it take consecutive coefficients; nothing else changes |
| DatetimeIdt.Validate | datetime0_idt.py:50-51 | always NotImplementedError |
| DatetimeIdt.Cut | datetime0_idt.py:63-69 | where a negative slice bound lands |
| DatetimeIdt.SplitValues | datetime0_idt.py:53-72 | a missing `idt` raises AttributeError; a slice that is not a number raises ValueError; microsecond is millisecond * 1000 |
| DatetimeIdt.ByDigits | datetime0_idt.py:53-72 | the digit-arithmetic components: month through second in 0..99 and millisecond in 0..999, unvalidated |
| DatetimeIdt.DigitGroups | datetime0_idt.py:63-69 | the last 13 digits are the six groups the slices cut out |
| DatetimeIdt.SplitByDigits | datetime0_idt.py:53-72 | for \|idt\| >= 10^13 the string slices equal digit arithmetic: year = idt / 10^13, month = idt / 10^11 % 100, and so on to millisecond = idt % 1000 |
| DatetimeIdt.IntTextSplit | datetime0_idt.py:58 | `str(idt)` is the sign and leading digits followed by the last k digits |
| DatetimeIdt.GroupsParse | datetime0_idt.py:62-70 | each slice parses to its component |
| DatetimeIdt.SplitOfGroups | datetime0_idt.py:62-72 | splitting a text of a head and six groups parses each part on its own |
| DatetimeIdt.Slices | datetime0_idt.py:63-69 | the seven slices of such a text are its head and groups |
| DatetimeIdt.ShortFails | datetime0_idt.py:63 | below 13 digits the year slice is empty or a lone sign, so the split raises ValueError |
| DatetimeIdt.CombineByDigits | datetime0_idt.py:19-30 | recombining the components with the `YYYYMMDDhhmmssfff` weights gives idt back |
| DatetimeIdt.SplitCombine | datetime0_idt.py:19-30 | splitting the packed value of in-range components gives the components back |
| DatetimeIdt.StrIso8601 | datetime0_idt.py:96-101 | fails exactly when the split fails |
| DatetimeIdt.IsoOfSeventeenDigits | datetime0_idt.py:96-101 | a 17-digit timestamp renders as its own digits with the separators of the ISO 8601 extended combined format between the groups |
| DatetimeIdt.RenderedGroups | datetime0_idt.py:100 | each digit group of a 17-digit text, formatted back at its width, is itself |
| DatetimeIdt.SplitOfDigitText | datetime0_idt.py:62-70 | on a 17-digit text every slice is a digit group read as a number |
| DatetimeIdt.Rendered | datetime0_idt.py:100 | `%0wd` of a group of w digits is the group |
| DatetimeIdt.IsoOfCombine | datetime0_idt.py:96-101 | rendering packed in-range components gives `YYYY-MM-DDThh:mm:ss.fff` zero padded |
| DatetimeIdt.IsoExample | TESTS/test_datetime.py:16-19 | 20141201083724315 renders as "2014-12-01T08:37:24.315" |
| FileDb.HexDigit | db/file_db.py:174 | a lower-case hex digit of the given value |
| FileDb.HexPair | db/file_db.py:174 | `"%02x" % ord(c)`: two hex digits whose value is the byte |
| FileDb.Str2HexStr | db/file_db.py:172-174 | twice as long as the input, pair i encoding byte i |
| FileDb.HexDecode | db/file_db.py:172-174 | the inverse reading yields half as many bytes |
| FileDb.HexRoundTrip | db/file_db.py:172-174 | the hex text decodes back to the input |
| FileDb.HexDecodeEncodes | db/file_db.py:172-174 | a text that decodes is the hex text of what it decodes to |
| FileDb.Str2HexStrInjective | db/file_db.py:172-174 | different digests get different hex texts |
| FileDb.Unpack | db/file_db.py:180-181 | a*10000 + b*100 + c gives a, b and c back by division when b and c have two digits |
| FileDb.StampRecovers | db/file_db.py:177-190 | `Mdate` and `Mtime` give the calendar and clock fields back |
| FileDb.MdateOrder | db/file_db.py:180 | comparing packed dates is comparing calendar dates |
| FileDb.GetFileStats | db/file_db.py:177-190 | the stats record the name, the size, the packed date and time and the hex digest, which decodes to the digest |
| FileDb.RegisterStatement | db/file_db.py:93-127 | the columns are md5sum, date, time, size and then the extra names, and the values md5sum, mdate, mtime, size and then the extra values in the same order; an UPDATE of an existing entry sets each column to its value and puts the filename last for the WHERE clause, an INSERT puts the filename first for the filename column |
| FileDb.RegisterAsWritten | db/file_db.py:90-100 | as written: without `extra_values` the call raises TypeError |
| FileDb.DefaultExtraFails | db/file_db.py:90-100 | the call with the default argument fails |
| FileDb.Register | db/file_db.py:90-128 | corrected: an absent `extra_values` means no extra fields, giving the statement over the four standard columns and the five values filename, md5sum, mdate, mtime, size (for an INSERT) |
| FileDb.PlaceholdersMatch | db/file_db.py:104-128 | with field names free of `?`, each statement has exactly one placeholder per value it is executed with |
| FileDb.InsertCount | db/file_db.py:124-126 | the INSERT has one `?` per field plus one for the filename |
| FileDb.UpdateCount | db/file_db.py:119-121 | the UPDATE has one `?` per field plus one for the filename |
| FileDb.QuotedCount | db/file_db.py:125 | the quoted names contribute no `?` |
| Generators.OuterLength | generators.py:40-42 | the nested loops yield \|first\| * \|rest\| tuples |
| Generators.OuterAt | generators.py:40-42 | tuple i of block j sits at j*\|first\| + i |
| Generators.AllCombinations | generators.py:14-42 | an empty `seq` raises IndexError at `seq[0]`; otherwise the tuples the generator yields |
| Generators.Pick | generators.py:36-42 | one component per sequence |
| Generators.CombinationsLength | generators.py:36-42 | exactly the product of the lengths many tuples |
| Generators.CombinationAt | generators.py:36-42 | tuple idx takes from sequence k the k-th mixed-radix digit of idx, the first varying fastest |
| Generators.EveryTupleOccurs | generators.py:36-42 | every choice of components occurs, at the index that encodes it |
| Generators.Example | generators.py:21-34 | the documented example with ranges of 4 and 3 |
| Sugar.IfElse | sugar.py:14-31 | a truthy `cond` gives `trueval`; otherwise the loop over pairs gives what the pair chain selects |
| Sugar.ChainFirstMatch | sugar.py:24-27 | the value of the first pair whose condition is truthy |
| Sugar.ChainNoMatch | sugar.py:29-31 | with no truthy condition: the trailing default for an odd count, None for an even one |
| Sugar.ChainSelectsPair | sugar.py:24-29 | conversely, a result other than None is a pair's value after only false conditions, or the default |
| Debugging.CloseAt | debugging.py:16 | the first `)` at or after a position, or none |
| Debugging.Candidates | debugging.py:16-17 | the names `%(...)` encloses: non-empty and without `)` |
| Debugging.CandidatesPlain | debugging.py:16 | text without `%` contributes no name |
| Debugging.CandidatesField | debugging.py:16-17 | a field `%(name)` contributes its name |
| Debugging.CandidatesUnclosed | debugging.py:16 | text without `)` contributes nothing |
| Debugging.TwoFields | debugging.py:16-17 | two fields separated by plain text give both names, left to right |
| Debugging.CountMissing | debugging.py:15-19 | the dict counts each name absent from `args` by its number of occurrences |
| Debugging.KeyList | debugging.py:20 | `keys()`: each key once |
| Debugging.SortedStrict | debugging.py:20-21 | sorted distinct keys are strictly ascending |
| Debugging.FindMissingArguments | debugging.py:13-22 | strictly ascending, so without duplicates, and holding exactly the enclosed names that are not keys of `args` |
| Strings.Sort | debugging.py:21 | `sort()`: the same strings, ascending |
| Strings.SortedUnique | debugging.py:21 | a multiset of strings has only one sorted arrangement |
| ArrayTools.IndicesWhereSpec | array_tools.py:36 | the indices are ascending, in range, and exactly those whose mask entry is true |
| ArrayTools.IndicesWhereCount | array_tools.py:36 | one index per true entry |
| ArrayTools.ArrayIndicesCond1d | array_tools.py:14-36 | corrected: an array that is not 1-D fails the assertion; a mask, given or computed by the callable from the whole array, of another length raises IndexError; otherwise the ascending indices of the true entries |
| ArrayTools.ArrayIndicesAsWritten | array_tools.py:30 | as written: NameError for every input |
| ArrayTools.AsWrittenNeverSelects | array_tools.py:14-36 | so it never gives the indices the corrected function gives |
| ArrayTools.AtMostBound | array_tools.py:25-27 | the documented use `r <= 2.5`: the indices of the elements at most the bound |
| Introspection.KeepIfMembers | py/introspection.py:30 | the comprehension keeps exactly the names that pass, in order |
| Introspection.FilterNamesSpec | py/introspection.py:29-40 | the filtered names are a subsequence of the names; a prefix keeps exactly the names starting with it and makes `rx_match` irrelevant; without a prefix, `rx_match` keeps exactly the names it finds a match in; with neither, all names |
| Introspection.FilterNamesAsWritten | py/introspection.py:34-35 | as written: a pattern string with a name to search raises NameError; otherwise the corrected filter |
| Introspection.PatternStringFails | py/introspection.py:34-35 | a name the pattern matches is then never returned |
| Introspection.MatchesSpec | py/introspection.py:41-59 | the matching names are a subsequence, and exactly those whose lookup succeeds with a value equal to `val` |
| Introspection.NameRLookup | py/introspection.py:10-59 | the loop appends exactly the filtered names whose lookup succeeds with a matching value and skips names whose lookup raises |
| Introspection.NameRLookupSpec | py/introspection.py:24-59 | the result is a subsequence of the filtered names, which is a subsequence of the names; a name is in it exactly when its lookup gives a value equal to `val` |
| Spline2d.SortPoints | math/spline_2d.py:28 | sorted by x (ties by y), a permutation of the input |
| Spline2d.SortedUnique | math/spline_2d.py:28 | the sorted arrangement is unique, so it is what the library's sort gives |
| Spline2d.SortedData | math/spline_2d.py:26-30 | the stored data holds each input pair once per occurrence, kept together, with ascending x |
| Spline2d.Min | math/spline_2d.py:74 | the least x |
| Spline2d.Max | math/spline_2d.py:75 | the greatest x |
| Spline2d.RangeOfData | math/spline_2d.py:72-78 | a piece's range is the first and last x of its sorted data |
| Spline2d.SortedEnds | math/spline_2d.py:28 | in sorted data the first x is the least and the last the greatest |
| Spline2d.Spline2d.constructor | math/spline_2d.py:20-21 | stores the sorted pairs and their columns |
| Spline2d.Spline2d.Init | math/spline_2d.py:23-38 | stores the pairs sorted by x with their columns and drops the cached spline parameters |
| Spline2d.StoredIsSortPoints | math/spline_2d.py:28 | whatever sort the library runs, the stored data is `SortPoints` |
| Spline2d.NewPiece | math/spline_2d.py:72-78 | one piece for a dataset, with its x range attached |
| Spline2d.BuildPieces | math/spline_2d.py:70-79 | one piece per dataset in order, up to the first dataset without x values |
| Spline2d.Spline2dPiecewise.constructor | math/spline_2d.py:64-79 | when every dataset has x values, one fresh piece per dataset, in order, storing and spanning it |
| Spline2d.Create | math/spline_2d.py:64-79 | `spline_2d_piecewise(*datasets)` raises ValueError exactly when some dataset has no x values; otherwise it gives a fresh object with one piece per dataset, each storing and spanning its dataset |
| Spline2d.Spline2dPiecewise.Init | math/spline_2d.py:67-79 | one piece per dataset in order; an empty x array makes `numpy.min` raise ValueError, keeping the pieces built before it |
| Spline2d.Spline2dPiecewise.GetPiece | math/spline_2d.py:81-88 | the first piece, in construction order, whose range holds x, both ends inclusive; ValueError when there is none |
| MixedRadix.EncodeRadix | file/file_utils.py:127-141 | every index below the product of the counts is the encoding of its digits |
| MixedRadix.RadixEncode | file/file_utils.py:127-141 | every choice of digits is the digits of exactly one index |
| MixedRadix.RadixDigit | file/file_utils.py:133-139 | digit d is the index divided by the stride of part d, modulo its count |
| Decimal.ParseIntOfString | datetime0_idt.py:62 | `int(str(i)) == i` for every int |
| Decimal.NatToStringInjective | datetime0_idt.py:58 | `str` of different naturals gives different texts |
| Decimal.FormatPaddedFits | datetime0_idt.py:100 | `%0Nd` of a value below 10^N is exactly its last N digits |

## Left out

- I/O is replaced by values passed in:
  - the lines a text file yields;
  - the bytes of a Fortran binary file;
  - the items behind `super_file`;
  - the names `glob.glob` matches;
  - the verdict of `os.path.isfile`;
  - the md5 digest, `os.stat` and `time.localtime`.
- Effects that are not computations are left out: running `tar`, SQL execution, debug output to stderr, the table `copy_over_array` prints to stdout (math/symmetrix-array-index.PY:127), and `close`/`__del__`.
- `open_input_file` is not part of this model. `text_input` only consumes its `superize` option.
- The random draw of `rannyu.__init__` is passed in as a parameter.
- `rannyu.normal` and `GaussianRandom` are left out because they compute with floats.
- Floats are opaque `real` values; nothing is computed with them:
  - the float conversions of `read_floats` and `read_items`;
  - the polynomial evaluation of `__call__`;
  - the jackknife averages and variances;
  - `numpy.mean` in the polynomial guess, passed in as `mean`.
- `numpy.sqrt` in the loop-free decoders is modelled as an exact integer square root.
- `jk_generate_averages` is left out. It uses an undefined `i` at math/stats/jackknife1.py:135.
- The spline evaluation (`init_spline_params`, `spline`) calls into scipy and is left out.
- Regular expressions become predicates: the matcher of `seek_text` and the `rx_match` search of `name_rlookup`. The `%(name)` scan of `fmtstr_find_missing_arguments` is modelled exactly.
- The order of `dir()`, which attributes can be fetched, and the order of `dict.keys()` are given as data of the namespace.
- `Parameters` is modelled without:
  - the `_flatten_` mode, whose path never sets `_list_`;
  - `_create_`, which inspects the caller's stack frame;
  - the weak reference in `_list_`.
- `Parameters` holds the supplied dicts by value, so a later change to such a dict is not seen by the model.
- Field values of `fortran_bin_file.read` are kept as the bytes read. Their numeric decoding by dtype is not modelled.
- The choice between item and attribute assignment on the result object is not modelled; fields go into a name-to-value map.
- `read_items` is modelled only up to the normalisation of its column specifications. The `numpy.dtype(type)` check of `reg.add` (iofmt/text_input.py:181), which raises TypeError for an unknown type, is left out, so `TextInput.ReadItemsColumns` accepts any type. Reading records with it and `read_floats` are left out.
- The errorbar expansion hook comes from a package that is not part of this model. Only its on/off flag is recorded.
- TextInput.TextInput.NextRec, TextInput.TextInput.NextLine and TextInput.TextInput.Next: their contracts give the fields and line text with the identity field filter. In a reader whose `expandErrorbar` flag is on (reachable when `set_options` switches it before raising), the source passes the fields through `expand_errorbar_hook`, and the model does not capture that change.
- FortranBinary.UInt32: record markers are decoded as little-endian. `numpy.uint32` reads the host's native byte order, which is little-endian on the usual hosts; big-endian hosts are not modelled. Field items are kept as raw bytes, so their byte order does not arise.
- `numpy.asarray` of a multi-dimensional input is left out of the jackknife model. Its inputs are one-dimensional Dafny arrays, so the `len(a.shape) == 1` assertion always holds.
- FortranBinary.FortranBinFile.Read: when the file ends inside a record, the contract states only that the result is a record or one of TypeError, IOError and IndexError, not which.
- ParamsFlat.Parameters.GetAttr: the special names of `dict` and `object` (`__class__`, `__doc__`, `__len__` and the like) are not in `OrdinaryAttributes`, so for them the model consults the parameters, where Python returns the special attribute.
- Spline2d.Spline2dPiecewise.constructor: requires every dataset to have x values, because a constructor that raises yields no object; the raising call is `Spline2d.Create`.
- ParamsFlat.Parameters.Copy: requires that the own entries carry no truthy `_flatten_`, since that mode is left out.

## Findings

| source | as written | input that shows it | evidently intended | confidence | as-written member | corrected member |
|---|---|---|---|---|---|---|
| math/symmetrix-array-index.PY:455 | `UD` and `UD1` swap the pair into (ii <= jj) but compute the column offset from the unswapped `j` (also line 488) | `UD(1,0,2) == -1`, while `UD(0,1,2) == 1` | the offset from `jj`, so that a pair and its swap share one code | not executed | SymmetricIndex.UDAsWrittenNotSymmetric | SymmetricIndex.UDFixedEncDec |
| math/random/rng_lcg48.py:53 | `numpy.random.randint` is called, but the module never imports numpy | `rannyu()` with no seed raises NameError | draw a library entry in 1..102 | not executed | RngLcg48.NewRannyuAsWritten | RngLcg48.NewRannyu |
| math/fitting/funcs_poly.py:40 | `numpy.mean` is called, but the module never imports numpy (also line 44) | `Poly_order2(ndim=1, ydata=[1.0])` raises NameError | a guess with the mean of ydata first | not executed | FuncsPoly.NoGuessAsWritten | FuncsPoly.Init |
| math/fitting/funcs_poly.py:40 | the guess of `__init__` has 1 + order*dim entries, but `Poly_order2x_only` has 1 + dim(dim+1)/2 parameters | `Poly_order2x_only(ndim=1, ydata=...)` gets 3 guess entries for 2 parameters | one entry per parameter, as `Guess` builds it | not executed | FuncsPoly.InitGuessMismatch | FuncsPoly.Init |
| db/file_db.py:99 | `extra_values` defaults to None and is iterated without a check | `register_file(name)` raises TypeError | no extra values means no extra fields | not executed | FileDb.DefaultExtraFails | FileDb.Register |
| array_tools.py:30 | `numpy.asarray` is called, but the module never imports numpy | every call raises NameError | the ascending indices of the true mask entries | not executed | ArrayTools.AsWrittenNeverSelects | ArrayTools.ArrayIndicesCond1d |
| py/introspection.py:35 | `re.search` is called, but the module never imports re | a string `rx_match` with a non-empty namespace raises NameError | keep the names the pattern matches | not executed | Introspection.PatternStringFails | Introspection.FilterNamesSpec |
