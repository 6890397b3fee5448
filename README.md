# PARSEC nested-config utilities, modelled in Dafny

This project models `lib/parsec/util.py` from the Cylc suite engine. That file holds
the helpers PARSEC uses to print, copy, override and clean nested
configuration sections (`OrderedDictWithDefaults` trees):

- `listjoin` and `itemstr` render values and breadcrumb paths (module `Render`, `render.dfy`);
- `printcfg` writes a tree in the INI-like `[section]` / `key = value` form (module `Printer`, `printer.dfy`);
- `replicate` and `pdeepcopy` deep-copy one tree into another (module `Replication`, `replicate.dfy`);
- `poverride` writes a sparse tree over a target whose sections already exist (module `SparseOverride`, `poverride.dfy`);
- `m_override` writes a sparse tree over a target, creating missing keys only where a `__MANY__` placeholder licenses them, and afterwards attaches the placeholder sections as `defaults_` (module `ManyOverride`, `m_override.dfy`; worked runs in `ManyOverrideExamples`, `m_override_examples.dfy`);
- `un_many` deletes the `__MANY__` placeholders from a tree (module `Placeholders`, `un_many.dfy`).

A tree is a value (module `ConfigNode`, `config_node.dfy`). A `Dict` holds
ordered own entries and an optional `defaults_` side-section. An entry maps a key
to a scalar (`None` or a string), a shallow list of scalars, or a sub-section.
`parsec/OrderedDict.py` is not part of this model. The lookup behaviour of
`OrderedDictWithDefaults` is fixed explicitly in `config_node.dfy`:

- `key in d` and `d[key]` fall back to `defaults_`, recursively;
- `d.items()` yields the own keys in insertion order, then the side-section's keys that are not own;
- assignment and `del` act on own entries only.

An operation that updates its target in place takes the target's value and
returns an `Outcome`. An `Outcome` is either the finished tree or the tree as far
as it got plus an `Error`: a missing section (`KeyError`), an unlicensed key,
or a section meeting a scalar or list.

Each `while`/`for` loop of `printcfg`, `replicate`, `poverride`, `m_override`
and `un_many` is a method with its loop invariants, proved equal to a
specification function (the loop of `listjoin` only builds a list of texts
and is the recursive function `Render.ItemTexts`):

- `Printer.PrintCfg` pops a stack of frames. Its output equals the lines of a pre-order walk.
- `Replication.ReplicateAll`, `SparseOverride.OverrideAll` and `Placeholders.UnmanyAll` loop over `items()` of the source.
- `ManyOverride.MOverride` drains a FIFO queue, with an inner loop over each source's items and a final attach loop.

The properties are then proved about those functions. For `m_override` they
sit in module `ManyOverrideFacts` (`m_override_facts.dfy`): where the sparse
values end up, and which sections get which `defaults_`.

Where the code and its docstrings differ, the model follows the code:

- `listjoin` quotes each item that holds `,`, `#`, `"` or `'` on its own, through `repr`, and leaves the other items bare. Its docstring says all items are quoted when any one is (`Render.ListJoinPerItem`).
- `m_override` attaches the `defaults_` only after the whole queue is drained (lines 206-207), and not at all when an item raises.
- An empty `source` or `sparse` leaves the target as it is. The original only rebinds its local name.

## Model

| member | source | states |
|---|---|---|
| Render.ReprRoundTrip | lib/parsec/util.py:44-45 | the `repr` that quotes a list item is a quoted string that reads back to the item |
| Render.ListJoinQuoting | lib/parsec/util.py:37-48 | a non-empty list renders as text; a `None` item's text is `none_str`; any other item's text is quoted exactly when that item holds `,` `#` `"` or `'`, a quoted text reads back to the item, any other text is the item itself |
| Render.ListJoinNone | lib/parsec/util.py:37-43 | an empty list renders as `none_str`, also when that is `None`; as an example, `[None, None]` renders as `n, n` for `none_str` `n` |
| Render.ListJoinPlain | lib/parsec/util.py:41-48 | plain items are joined with `", "` and not quoted |
| Render.ListJoinPerItem | lib/parsec/util.py:30-48 | one item with a delimiter is quoted while its neighbour stays bare |
| Render.ListJoinApostrophe | lib/parsec/util.py:44-45 | an item holding `'` and no `"` is written in double quotes |
| Render.ItemStrBrackets | lib/parsec/util.py:232-244 | with parents and an item, the text is the parents bracketed in order, the item, then ` = value` when there is a value |
| Render.ItemStrNoParents | lib/parsec/util.py:239-247 | without parents the text is the item (plus ` = value`), or `str(value)` when there is no item |
| Render.ItemStrLastParent | lib/parsec/util.py:234-238 | given a value and no item, the last parent becomes the item: the same text as naming it, when it does not occur earlier among the parents |
| Render.ItemStrRepeatedParent | lib/parsec/util.py:236-237 | when the last parent also occurs earlier, `list.remove` drops the earlier occurrence; a single parent gives `[]` before the item |
| Render.ItemStrExample | lib/parsec/util.py:230 | `itemstr(['sec1','sec2'],'item','value')` is `[sec1][sec2]item = value` |
| Render.ItemStrNoValue | lib/parsec/util.py:254-256 | the demo calls without a value give `[sec1][sec2]item`, `[sec1][sec2]`, `[sec1]` |
| Render.ItemStrValueOnly | lib/parsec/util.py:261 | the demo call with parents and a value but no item gives `[sec1]sec2 = value` |
| Printer.PrintCfg | lib/parsec/util.py:51-95 | the lines written are exactly the lines of the pre-order walk of `cfg` (`Output`), for every printable `cfg` |
| Printer.Visit | lib/parsec/util.py:59-95 | one popped frame writes its heading or `key = value` line (`Emit`) and pushes what `Pushed` says |
| Printer.Partition | lib/parsec/util.py:72-78 | a section's items are split into value frames and sub-section frames, each in insertion order, one level deeper |
| Printer.Emit | lib/parsec/util.py:60-95 | at most one line per frame; it starts with the prefix and the spacer and ends with a newline; a heading needs a key and a non-zero level; a `None` scalar writes nothing exactly when `none_str` is `None` |
| Printer.PushedWalk | lib/parsec/util.py:80-81 | pushing reversed sub-sections, then reversed values, makes the rest of the frame's walk the next frames popped: its values in order, then each sub-section's whole walk |
| Printer.PushedPrintable | lib/parsec/util.py:80-81 | the frames pushed for a printable frame are printable |
| Printer.WalkSection | lib/parsec/util.py:71-81 | a section is printed before its values, which come before its sub-sections, each sub-section completely before the next |
| Printer.OutputLines | lib/parsec/util.py:69-70 | every line written starts with the prefix and ends with a newline |
| Printer.LeafLine | lib/parsec/util.py:83-95 | a keyed one-line scalar is written as `key = value` |
| Printer.OneLeafOutput | lib/parsec/util.py:57-95 | a root section with one keyed leaf prints that one line and no heading |
| Printer.PrintCfgFlat | lib/parsec/util.py:267 | `printcfg({'foo': 1})` writes `foo = 1` |
| Printer.NestedOutput | lib/parsec/util.py:270 | a root holding one section with one one-line scalar prints the heading `[key]`, then the scalar indented as `key = value`, both after the prefix, for any prefix and `none_str` |
| Printer.PrintCfgNested | lib/parsec/util.py:270 | `printcfg({'foo': {'bar': 1}})` writes `[foo]` then `    bar = 1` |
| Replication.Replicate | lib/parsec/util.py:98-119 | the result is `Replicated`: empty source does nothing; side-section deep-copied first, then every item in order |
| Replication.ReplicateAll | lib/parsec/util.py:109-119 | the item loop stops at the first failing item and otherwise applies every item in order |
| Replication.ReplicateItem | lib/parsec/util.py:110-119 | a section item creates the missing target section and replicates into it; a list or scalar is assigned |
| Replication.ReplicateInto | lib/parsec/util.py:113-115 | the source section's side-section is deep-copied onto the target section before replicating into it |
| Replication.PDeepCopy | lib/parsec/util.py:122-126 | `pdeepcopy` is `replicate` into a fresh section |
| Replication.ReplicateCovers | lib/parsec/util.py:98-119 | after a complete `replicate`, every item of the source is in the target: leaves equal, sections covered recursively |
| Replication.ReplicateKeepsOwn | lib/parsec/util.py:98-119 | an own entry whose key the source lacks is untouched, whether `replicate` completes or raises |
| Replication.ItemsOnlyAdd | lib/parsec/util.py:109-119 | a key visible after the loop was visible before or is one of the source's keys |
| Replication.CopiedKeys | lib/parsec/util.py:122-126 | a complete `pdeepcopy` has exactly the source's keys and covers the source |
| Replication.ReplicateDefaults | lib/parsec/util.py:107-108 | after a complete `replicate` of a source with `defaults_`, the target's `defaults_` shows exactly the keys of the source's and covers it |
| Replication.SectionDefaults | lib/parsec/util.py:113-115 | the same for a sub-section: after replicating into it, its `defaults_` is a copy of the source section's |
| Replication.ReplicateWritesThrough | lib/parsec/util.py:107-119 | without `Disjoint`, an own section of the source also shown by its `defaults_` is written through into the copied side-section, which then is no copy |
| SparseOverride.POverride | lib/parsec/util.py:129-143 | the result is `Overridden`: empty sparse does nothing; otherwise every item in order |
| SparseOverride.OverrideAll | lib/parsec/util.py:137-143 | the item loop stops at the first failing item and otherwise applies every item in order |
| SparseOverride.OverrideItem | lib/parsec/util.py:138-143 | a section item recurses into the existing target section (missing: `KeyError`); a list or scalar is assigned |
| SparseOverride.OverrideDone | lib/parsec/util.py:129-143 | `poverride` completes exactly when every section the sparse tree names already exists in the target (`Fits`) |
| SparseOverride.OverrideApplied | lib/parsec/util.py:129-143 | after a complete `poverride`, every leaf of the sparse tree is in the target, recursively |
| SparseOverride.OverrideFrame | lib/parsec/util.py:137-143 | keys the sparse tree does not name keep their lookup, own and through `defaults_`, whether it completes or raises |
| ManyOverride.MOverride | lib/parsec/util.py:146-207 | the result is `ManyOverridden`: the FIFO queue is drained, then the recorded templates are attached in order; an empty sparse tree changes nothing |
| ManyOverride.OverrideItem | lib/parsec/util.py:161-205 | one item follows the licensing order: existing key, placeholder in `dest`, placeholder in the template, key in the template, else an error |
| ManyOverride.VisitItem | lib/parsec/util.py:161-185 | an item queues at most one entry, only for a section, at the item's key path |
| ManyOverride.VisitTask | lib/parsec/util.py:157-185 | each queue entry queues entries whose sections number fewer than its own, so the queue loop ends |
| ManyOverride.ItemLicensing | lib/parsec/util.py:167-201 | for a key `dest` lacks, the item goes through exactly when it is licensed and `dest` then owns the key; otherwise it raises with the key path and changes nothing |
| ManyOverride.ManyOverrideKeeps | lib/parsec/util.py:146-207 | no own key is ever removed, a leaf stays a leaf and a section stays a section or is overwritten by a leaf; with nothing recorded no `defaults_` is added; an own `__MANY__` survives |
| ManyOverride.PutAtSectionAt | lib/parsec/util.py:169-205 | writing the section at a key path and looking it up again gives what was written |
| ManyOverrideFacts.ManyOverrideApplied | lib/parsec/util.py:146-207 | on a target without `defaults_`, after a complete `m_override` every list and scalar of `sparse` is an own entry of the target at its key path, with the value `sparse` gives it |
| ManyOverrideFacts.ManyOverrideDefaults | lib/parsec/util.py:157-207 | on a target without `defaults_`, after a complete `m_override`, `defaults_list` names each section once; each section it names is reached through own keys and has as `defaults_` the template recorded with it; every other section reached through own keys has none |
| ManyOverrideFacts.DrainApplied | lib/parsec/util.py:157-205 | when the queue loop completes, every list and scalar of every entry it started with is found at its key path with its value |
| ManyOverrideFacts.DrainKeeps | lib/parsec/util.py:157-205 | the queue loop writes only below the paths of its entries: anything found elsewhere is still found, a list or scalar with its value |
| ManyOverrideFacts.DrainLog | lib/parsec/util.py:157-160 | when the queue loop completes, `defaults_list` names each section at most once, and each is still found |
| ManyOverrideFacts.NextQueue | lib/parsec/util.py:157-185 | after one entry the queue still holds well-formed sources, none at a path below another's |
| ManyOverrideFacts.ItemSets | lib/parsec/util.py:161-205 | an item that goes through leaves its key in `dest`, holding the item's value when that is a list or scalar; exactly a section item queues an entry |
| ManyOverrideFacts.ItemFrame | lib/parsec/util.py:161-205 | one item writes only the key it names in `dest`, and a section item at most creates that key |
| ManyOverrideFacts.TaskKeeps | lib/parsec/util.py:158-185 | one queue entry writes only below its own path |
| ManyOverrideFacts.AttachKeepsOwn | lib/parsec/util.py:206-207 | the attach loop keeps every list and scalar reached through own keys |
| ManyOverrideFacts.RecordedDefaults | lib/parsec/util.py:206-207 | after the attach loop each recorded section has as `defaults_` the template recorded with it |
| ManyOverrideFacts.UnrecordedNone | lib/parsec/util.py:206-207 | after the attach loop a section not recorded has no `defaults_`, when the tree had none |
| ManyOverrideExamples.UnlicensedKey | lib/parsec/util.py:187-201 | `{a: {b: 1}}` overridden by `{a: {c: 2}}` raises at `[a][c]` with the target unchanged |
| ManyOverrideExamples.PlaceholderLicenses | lib/parsec/util.py:163-207 | `{a: {__MANY__: {x: v}}}` overridden by `{a: {j: {x: w}}}` creates `a.j = {x: w}` with `defaults_` `{x: v}` and keeps the placeholder |
| Placeholders.UnMany | lib/parsec/util.py:210-224 | the result is `Unmanied` as written: empty section untouched; each item of the snapshot visited in order; on a `Tidy` tree it completes, is clean at every level and idempotent (`UnmanyAgrees`) |
| Placeholders.UnmanyAgrees | lib/parsec/util.py:210-224 | when no level shows `__MANY__` both as an own entry and through `defaults_`, the program as written equals the corrected version, completes, leaves no `__MANY__` visible at any level, and a second call changes nothing |
| Placeholders.UnmanyAll | lib/parsec/util.py:214-224 | the item loop stops at the first failing item and otherwise visits every item in order |
| Placeholders.UnmanyItem | lib/parsec/util.py:215-224 | the placeholder is deleted as an own entry, else from `defaults_`, else `KeyError`; another section is cleaned recursively |
| Placeholders.UnmanyOwnRemoved | lib/parsec/util.py:215-217 | a complete call leaves no own `__MANY__` at the level it was called on |
| Placeholders.UnmanyKeepsLeaves | lib/parsec/util.py:223-224 | lists and scalars other than the placeholder are unchanged, whether the call completes or raises |
| Placeholders.UnmanyLookupStep | lib/parsec/util.py:214-224 | with unique keys, each item still to visit is what `cfig[key]` denotes, so recursing into the snapshot's value is recursing into `cfig[key]` |
| Placeholders.UnmanyLeavesPlaceholder | lib/parsec/util.py:215-222 | an own `__MANY__` plus one in `defaults_`: the call completes yet `'__MANY__' in cfig` still holds; a second call removes it |
| Placeholders.DropMany | lib/parsec/util.py:215-222 | the corrected deletion: no `__MANY__` is visible afterwards and every other key's lookup is unchanged |
| Placeholders.UnmanyFixedDone | lib/parsec/util.py:210-224 | the corrected version never raises |
| Placeholders.UnmanyFixedClean | lib/parsec/util.py:210-224 | the corrected version leaves no `__MANY__` visible at any level reached through sections |
| Placeholders.CleanUnchanged | lib/parsec/util.py:210-224 | a tree without visible placeholders is returned unchanged by either version |
| Placeholders.UnmanyFixedIdempotent | lib/parsec/util.py:210-224 | the corrected version is idempotent |

## Left out

- `OrderedDictWithDefaults` (`parsec/OrderedDict.py`) is not part of this model. Its lookup, iteration and update behaviour is the explicit assumption stated in `config_node.dfy`.
- Object identity and sharing are not modelled. In-place updates return the new tree value. `m_override` keeps key paths into the target where the original keeps object references. A template attached as `defaults_` is a copy of the value, not a shared object. Two consequences: after a sparse `__MANY__: scalar` item overwrites a template section, a later entry's template resolves as empty, so the model raises `Unlicensed` where the original, holding the old object, goes on; and a recorded section whose path was found through a `defaults_` that the attach loop has since replaced may no longer be found, so the model ends in `TypeMismatch` where the original assigns to the object it holds.
- `ManyOverride.Template`: a template that is a list or scalar counts as an empty section. The original would test membership on that object instead.
- Python exception types and messages become the three `Error` values. A source section meeting a list or scalar in the target is reported as `TypeMismatch`, where the original raises whatever that object raises.
- `str()` of non-string scalars is not modelled: scalars are strings or `None`. `repr` is Python 2's `repr` of a byte string; `unicode` values are not modelled.
- `printcfg` writes to `handle`. Here the written lines are a sequence of strings; the stream itself is not modelled.
- Render.ListJoin: requires that, when `none_str` is `None`, no item is `None`. The original raises `TypeError` from `', '.join` there; that error is not modelled.
- Printer.PrintCfg: requires that, when `none_str` is `None`, no list holds a `None` item. On such input the original writes some lines and then `', '.join` raises `TypeError`; that partial output is not modelled.
- List copies (`val[:]`) are values here, so copying and assigning are the same.
- `un_many` recurses into the value from the `items()` snapshot rather than `cfig[key]`. `Placeholders.UnmanyLookupStep` shows the two agree when own keys are unique.
- ManyOverride.MOverride and ManyOverride.ManyOverrideKeeps: their own contracts state the loop structure and the kept keys and kinds only; where the sparse values land and which sections get which `defaults_` is stated by ManyOverrideFacts.ManyOverrideApplied and ManyOverrideFacts.ManyOverrideDefaults, under the restrictions below.
- ManyOverrideFacts.ManyOverrideApplied: proved only for a target in which no section reached through own keys has a `defaults_` (`NoSide`), and it speaks of lists and scalars only; an empty sparse section is not said to exist in the target.
- ManyOverrideFacts.ManyOverrideDefaults: proved only for a target without `defaults_` (`NoSide`), and only about sections reached through own keys; each template is the one resolved when it is attached, as the original's shared object would be only when nothing changed it since.
- Replication.ReplicateDefaults and Replication.SectionDefaults: require `Disjoint`, that no own section of the source is also shown by its `defaults_`; otherwise the original writes through into the copy (`Replication.ReplicateWritesThrough`).
- Placeholders.UnmanyAgrees: requires `Tidy`; the as-written behaviour on other trees is the finding below.
- Lemmas marked `WF` assume unique own keys at every level, which Python dictionaries guarantee.
- `lib/cylc/gui/scanutil.py` and `lib/Jinja2Filters/strftime.py` are not part of this model.
- The `__main__` demo, lines 251-274, is stated only for the calls named in the table. The other `printcfg` demo calls are not stated one by one.

## Findings

| source | as written | input that shows it | evidently intended | confidence | as-written member | corrected member |
|---|---|---|---|---|---|---|
| lib/parsec/util.py:215-222 | at a level whose items include `__MANY__`, `del cfig[key]` removes only the own entry, so a `__MANY__` in `defaults_` stays visible | `cfig` with an own `__MANY__` section and `defaults_` = `{__MANY__: {...}}` | remove every `__MANY__` the level shows, as the docstring says ("Remove any '__MANY__' items") | low: depends on the assumed `OrderedDictWithDefaults` semantics; not executed | Placeholders.UnmanyLeavesPlaceholder | Placeholders.UnmanyFixedClean |
