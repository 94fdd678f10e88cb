# Alias information of an operator operand, in Dafny

This project models `AliasInfo` from PyTorch's JIT (`torch/csrc/jit/alias_info.h`).
An `AliasInfo` records the alias contract of one operand of an operator:

- the symbolic alias sets the value belongs to at the start of the op (input sets);
- the sets it belongs to at the end (output sets). When none were added, the input sets are reported instead;
- whether the op writes through the value;
- the alias information of each contained type, in order. For a `List[T]`, entry 0 describes the elements.

It also models the reserved wildcard symbol and the stream operator that renders an `AliasInfo` as text.

Files:

- `symbols.dfy` (module `Symbols`): `Symbol` is a namespace plus an unqualified name, so two symbols built from the same text are equal. `Wildcard()` is the symbol `alias::*`.
- `alias_info.dfy` (module `AliasInfos`):
  - `AliasInfoVal` is the value form. Its member `OutputSets()` carries the fallback rule.
  - `Call`, `Apply` and `Build` describe a fresh object followed by any sequence of builder calls.
  - lemmas state what `Build` leaves behind, against reference definitions (`InputTokens`, `OutputTokens`, `ContainedArgs`, `LastWriteFlag`).
  - `class AliasInfo` has the four fields the source updates in place. Its builder methods are specified by `Apply` on `Value()`, and also field by field. `IsWrite`, `InputSets` and `ContainedTypes` read a field. `OutputSets` returns `Value().OutputSets()`.
- `alias_info_printer.dfy` (module `AliasInfoPrinter`):
  - `Render` is the rendering as a function. `Print` is the stream operator's two loops, proved equal to `Render`.
  - An `unordered_set` is visited in an unspecified order. So both take an `Enumeration`: for every node of the tree, a duplicate-free listing of its input sets.
  - lemmas cover the rendering's properties.
- `strings.dfy` (module `Strings`): `Join` with a separator, its inverse `Split`, and facts about characters of joins.
- `alias_info_examples.dfy` (module `AliasInfoExamples`):
  - the rendering `(a|b[(c)])`;
  - the list annotation of `aten::append` described in the comment at alias_info.h:37-38.

The children of an `AliasInfo` are held by value. `addContainedType` takes its argument by value, so the stored child is a copy, and the tree has no sharing. `AddContainedType` stores `old(aliasInfo.Value())`. This stays right when an object is appended to itself.

## Model

| member | source | states |
|---|---|---|
| `Symbols.Wildcard` | torch/csrc/jit/alias_info.h:12-15 | The wildcard is the symbol whose qualified string is `alias::*` and whose unqualified name, the text the renderer writes, is `*`. It is a function of no arguments, so every call yields the same symbol. |
| `AliasInfos.AliasInfo.constructor` | torch/csrc/jit/alias_info.h:17 | A fresh object has no input sets, no output sets and no contained types, and its write flag is false (the default at line 63). |
| `AliasInfos.AliasInfo.SetIsWrite` | torch/csrc/jit/alias_info.h:19-21 | The flag becomes the argument, and the other three fields are unchanged. |
| `AliasInfos.AliasInfo.AddInputSet` | torch/csrc/jit/alias_info.h:26-28 | The input sets become the old ones plus the token, and the other fields are unchanged. |
| `AliasInfos.AliasInfo.AddOutputSet` | torch/csrc/jit/alias_info.h:29-31 | The stored output sets become the old ones plus the token, and the other fields are unchanged. The reported output sets are then exactly the stored ones, so they are not empty. |
| `AliasInfos.AliasInfo.AddContainedType` | torch/csrc/jit/alias_info.h:52-54 | A copy of the argument's state is appended at the end, and earlier entries are unchanged. Input sets, output sets and write flag are unchanged. |
| `AliasInfos.BuildInputSets` | torch/csrc/jit/alias_info.h:26-35 | After any sequence of builder calls on a fresh object, the input sets are exactly the tokens passed to AddInputSet, each once, whatever else was called. |
| `AliasInfos.BuildStoredOutputSets` | torch/csrc/jit/alias_info.h:29-31 | After any sequence of builder calls, the stored output sets are exactly the tokens passed to AddOutputSet. |
| `AliasInfos.BuildOutputSets` | torch/csrc/jit/alias_info.h:39-46 | With no AddOutputSet call, the reported output sets equal the input sets, also when both are empty. After at least one such call, they equal exactly the tokens passed to AddOutputSet and are not empty, however many AddInputSet calls come later. |
| `AliasInfos.BuildContained` | torch/csrc/jit/alias_info.h:52-57 | The contained types are the arguments of the AddContainedType calls, in call order. |
| `AliasInfos.BuildIsWrite` | torch/csrc/jit/alias_info.h:19-24 | The write flag is true iff some SetIsWrite(true) is followed by no other SetIsWrite. So it starts false and afterwards holds the last value set. |
| `AliasInfos.AddInputSetIdempotent` | torch/csrc/jit/alias_info.h:26-28 | Adding the same input set twice leaves exactly what adding it once leaves. |
| `AliasInfoPrinter.SomeEnumeration` | torch/csrc/jit/alias_info.h:70 | Every alias information tree has a duplicate-free visiting order of the input sets at every node, so every tree has a rendering. |
| `AliasInfoPrinter.RenderEnclosed` | torch/csrc/jit/alias_info.h:66-92 | A rendering starts with `(` and ends with `)`. |
| `AliasInfoPrinter.Print` | torch/csrc/jit/alias_info.h:66-92 | The stream operator's loops write exactly `Render`: the `first` flag puts `\|` between names, and the index loop puts `, ` between child renderings inside `[ ]`, only when there are children. |
| `AliasInfoPrinter.RenderIgnoresOutputsAndWrites` | torch/csrc/jit/alias_info.h:66-92 | Two trees with the same input sets and shape at every node render the same, whatever their output sets and write flags. So neither ever appears in the text. |
| `AliasInfoPrinter.TokenSectionIsJoin` | torch/csrc/jit/alias_info.h:67-77 | When no input-set name holds `[` or `)`, the text between the leading `(` and the first `[` or `)` is exactly the names joined by `\|`. |
| `AliasInfoPrinter.RenderTokenSection` | torch/csrc/jit/alias_info.h:69-77 | When no name holds `\|`, `[` or `)`, splitting that section at `\|` gives back the names of the input sets in visiting order, each once. With no input sets the section is empty. |
| `AliasInfoPrinter.RenderOrderInvariant` | torch/csrc/jit/alias_info.h:70-76 | Any two visiting orders give renderings of equal length with the same characters and multiplicities: each name is written once whatever the hash-set order. |
| `AliasInfoPrinter.ListingsSameChars` | torch/csrc/jit/alias_info.h:70-76 | Two duplicate-free listings of one set have equal length and write the same characters. |
| `Strings.SplitJoin` | torch/csrc/jit/alias_info.h:69-76 | Splitting at `\|` a non-empty `\|`-join of names that hold no `\|` gives back the names. |
| `AliasInfoExamples.RenderListOfC` | torch/csrc/jit/alias_info.h:66-92 | Input sets {a, b} with one child whose input set is {c} render as `(a\|b[(c)])` or `(b\|a[(c)])`, and as nothing else. |
| `AliasInfoExamples.AppendListAnnotation` | torch/csrc/jit/alias_info.h:37-38 | The list argument of `aten::append(Tensor(b -> b\|c)[](a!) list, Tensor(c) el)` is in set a and written to. Its output sets fall back to {a}. Its one element type is in {b} on entry and in {b, c} on exit. It renders as `(a[(b)])`. |

## Left out

- Symbol interning: `Symbol::fromQualString` and `toUnqualString` live in `torch/csrc/jit/interned_strings.h`, which is not part of this model. A symbol is a namespace and a name compared by value, and `UnqualString` returns the name.
- The thread-safe one-time initialisation of Wildcard's function-local `static` (line 13): this is concurrency. The model's `Wildcard()` is a constant.
- `std::ostream`: the renderer returns a string instead of writing to a stream.
- References and moves: `inputSets()`, `outputSets()` and `containedTypes()` return references, and `addContainedType` moves from its parameter. The model returns values and copies the argument's state. It does not model the moved-from state of a caller's object passed with `std::move`.
- The unspecified iteration order of `std::unordered_set` is a parameter (`Enumeration`), not a particular hash order. The names are therefore not promised to appear in the order the tokens were added.
- AliasInfoPrinter.RenderTokenSection: reads back only the input-set section of a rendering, and only when names avoid `|`, `[` and `)`. Parsing the bracketed contained section back is not modelled, because reparsing belongs to the schema parser.
- AliasInfoPrinter.RenderOrderInvariant: relates renderings under two visiting orders only through their characters. The exact text under each order is given by `Render`.
- Wildcard widening, write-hazard propagation and may-alias queries over a graph: no code in `alias_info.h` implements them. They belong to the alias analysis that consumes this structure.
- The schema parser that builds these objects, and the check that the number of contained types matches the operand's type: neither is in this file.
