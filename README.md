# SNMP MIB generator — a Dafny model

This project models the core of `experimental/sysmib.py`, the `MIB` class that
keeps the Nutanix alert MIB file in step with the alert definitions, together with
the attribute table of `experimental/utils_mib.py`.

The model covers these parts:

- **Reading.** `read_file` reads the MIB file. After the sentinel line
  `  ntxAlert OBJECT IDENTIFIER ::= {nutanix 999}` it registers every
  `OBJECT-TYPE` as an `NtxObject` and every `NOTIFICATION-TYPE` as an `NtxTrap`.
  It uses the helpers `number`, `refinesyntax`, `findlist`, `read_string_end` and
  `parseOID`.
- **Registering.** `add_object` and `add_trap` append a record only when no
  registered record compares equal. They advance the next free OID counter to
  `max(counter, record.counter + 1)`. `del_object` and `del_trap` remove the
  first equal record.
- **Building.** `alertattr_to_object` and `alert_to_trap` build new records
  from an alert attribute or an alert. They use `selecttype`, `parse_name` and
  `MAX_OBJECT_NAME_LIMIT`. `find_trap_for_alert` looks a trap up by an alert's
  title.
- **Writing.** `dump_object_file`, `dump_trap_file`, `dump_objlist` and
  `dump_traplist` fill in the MIB templates. `apply_changes_file` cuts the file
  after the sentinel line and appends the dumped records and `END`.
- **Attribute table.** `addattribute` fills `ATTRIBUTE` from a message's
  fields through `MAPTYPE` and `LABELTYPE`, then overrides `severity` and
  `title`.

The modules follow the program's structure:

| file | module | what it holds |
|---|---|---|
| `wrappers.dfy` | `Wrappers` | `Option` |
| `text.dfy` | `Text` | the Python `str` built-ins the source relies on (`split`, `join`, `rstrip`, `count`, `replace`, `str(int)`, the `\d+` and `[a-zA-Z0-9]` classes) |
| `mib_records.dfy` | `MibRecords` | `NtxObject`, `NtxTrap`, their `compare`, the constants of the class, the alert fields used |
| `mib_registry.dfy` | `MibRegistry` | the four lists-and-counters state as a value, with `add_*`/`del_*` as functions and the invariant they keep |
| `mib_parse.dfy` | `MibParse` | the helpers of `read_file` and its line loop as a state machine (`LineStep`, `Run`) |
| `mib_build.dfy` | `MibBuild` | `selecttype`, `parse_name`, `alertattr_to_object`, `alert_to_trap`, the trap lookup |
| `mib_emit.dfy` | `MibEmit` | the templates, the dumps, the splice of `apply_changes_file`, and the read-back of what is written |
| `mib_readback.dfy` | `MibReadBack` | `read_file` over the blocks the dumps write: line by line and block by block, the record written is the record read |
| `mib.dfy` | `SysMib` | `class Mib`: the imperative methods, each proved against the functions above |
| `utils_mib.dfy` | `UtilsMib` | `MAPTYPE`, `LABELTYPE`, `class AttributeCatalog` with `addattribute` |

`read_file` is one pass over the lines that updates a phase flag and the
record in progress. It is modelled by `MibParse.LineStep`, a function from a
line and a cursor to a step: go on, register an object, register a trap, or
fail. A helper that raises `IndexError` gives the fail step. `MibParse.Run`
folds `LineStep` over the first `k` lines. `SysMib.Mib.ReadFile` is a loop
proved to leave the object in the state `Run` gives.

## Model

| member | source | states |
|---|---|---|
| MibRecords.CompareIsEquivalence | experimental/sysmib.py:75-97 | `compare` on objects (same name, syntax, access and status) and on traps (same name and status) is reflexive, symmetric and transitive |
| MibRegistry.Registry.AddObject | experimental/sysmib.py:262-269 | an object comparing equal to a registered one changes nothing; otherwise it is appended and the object counter becomes at least the object's counter + 1 and at least what it was; the traps are untouched |
| MibRegistry.Registry.AddTrap | experimental/sysmib.py:271-277 | the same for traps and the trap counter; the objects are untouched |
| MibRegistry.Registry.DelObject | experimental/sysmib.py:279-284 | an absent object changes nothing; a present one is removed once (the multiset loses exactly one copy, the length drops by one); counters and traps unchanged |
| MibRegistry.Registry.DelTrap | experimental/sysmib.py:286-291 | the same for traps |
| MibRegistry.InitialValid | experimental/sysmib.py:36-47 | the class-level defaults (no records, counters 1 and 1000) satisfy the registry invariant |
| MibRegistry.AddObjectKeepsValid | experimental/sysmib.py:262-269 | registering keeps the invariant: no two registered objects compare equal and the next object counter is above every registered counter |
| MibRegistry.AddTrapKeepsValid | experimental/sysmib.py:271-277 | the same invariant for traps is kept by `add_trap` |
| MibRegistry.DelObjectKeepsValid | experimental/sysmib.py:279-284 | deleting keeps the invariant |
| MibRegistry.DelTrapKeepsValid | experimental/sysmib.py:286-291 | deleting a trap keeps the invariant |
| MibRegistry.AddObjectIdempotent | experimental/sysmib.py:266 | adding the same object twice is the same as adding it once |
| MibRegistry.AddTrapIdempotent | experimental/sysmib.py:275 | adding the same trap twice is the same as adding it once |
| MibRegistry.RemoveFirst | experimental/sysmib.py:283-284 | `list.remove`: drops the first equal element only, and keeps the order of the others |
| SysMib.Mib.constructor | experimental/sysmib.py:37-47 | a new MIB has no records, object counter 1, trap counter 1000 |
| SysMib.Mib.AddObject | experimental/sysmib.py:262-269 | the object's new state is `AddObject` of the old state |
| SysMib.Mib.AddTrap | experimental/sysmib.py:271-277 | the new state is `AddTrap` of the old state |
| SysMib.Mib.DelObject | experimental/sysmib.py:279-284 | the new state is `DelObject` of the old state |
| SysMib.Mib.DelTrap | experimental/sysmib.py:286-291 | the new state is `DelTrap` of the old state |
| MibParse.FirstDigit | experimental/sysmib.py:109 | the position of the first digit, None exactly when the string has none |
| MibParse.Number | experimental/sysmib.py:105-110 | `number` fails exactly when the line has no digit |
| MibParse.UpTo | experimental/sysmib.py:131 | the text up to the first `}` (or all of it): a prefix without `}` that stops at one |
| MibParse.LastIndex | experimental/sysmib.py:150 | the position of the last occurrence of a character, with no later one; `OidGroup` applies it to the text between a `{` and the next `"` (or the line's end), because the greedy `{([^"]*)}` match ends at the last `}` before that `"`, so `{a} "x}"` gives `a` |
| MibParse.OidGroup | experimental/sysmib.py:150 | the group `parseOID` finds holds no `"` |
| MibParse.ScanToSecondMarkSpec | experimental/sysmib.py:125-130 | the accumulate-and-count loop of `findlist`/`read_string_end` stops at the first line where the running count of marks reaches exactly 2 and returns the lines so far; it fails (the loop would run off the file) when no such line exists |
| MibParse.AccumulateToSecondMark | experimental/sysmib.py:139-144 | the `while len_col != 2` loop computes `ScanToSecondMark` |
| MibParse.FindList | experimental/sysmib.py:121-133 | `findlist` returns the comma-separated names inside the first braces of the gathered lines, with whitespace removed |
| MibParse.ReadStringEnd | experimental/sysmib.py:135-146 | `read_string_end` returns the text after the first `"` of the gathered lines, up to the next one |
| MibParse.NothingBeforeSentinel | experimental/sysmib.py:165-170 | until a line reads as the sentinel, reading registers nothing and the cursor stays at its start |
| MibParse.ObjectLineAdds | experimental/sysmib.py:184-199 | inside an object, only a `::=` line registers, and it registers an object with the line's number and OID |
| MibParse.TrapLineAdds | experimental/sysmib.py:200-213 | inside a trap, only a `::=` line registers, and it registers a trap with the line's number and OID |
| MibParse.FieldLineAdds | experimental/sysmib.py:184-213 | a registering field line starts with `::=`, carries a number and an OID group, and registers the kind of record whose header came last |
| MibParse.RegistersOnlyOnAssignLine | experimental/sysmib.py:161-213 | any line of the file that registers a record is, after `rstrip`, a `::=` line with a number and an OID |
| MibParse.ApplyKeepsValid | experimental/sysmib.py:199 | one step of the read keeps the registry invariant |
| MibParse.RunKeepsValid | experimental/sysmib.py:154-213 | reading any number of lines keeps the registry invariant |
| MibParse.ApplyOnlyAdds | experimental/sysmib.py:199 | one step only appends records and never lowers a counter |
| MibParse.RunOnlyAdds | experimental/sysmib.py:154-213 | reading only appends: the records before the read stay a prefix and the counters never go down |
| MibParse.CrashStays | experimental/sysmib.py:154-213 | once a helper has raised, the state is final: the records registered before that line stay |
| SysMib.Mib.ReadLine | experimental/sysmib.py:161-213 | the loop body computes `LineStep`: the sentinel check, the headers, the object and trap fields, each helper call and its failure |
| SysMib.Mib.ReadFile | experimental/sysmib.py:154-213 | the MIB ends in the registry `Run` gives on the whole file; `ok` is false exactly when a helper raised |
| MibBuild.SelectType | experimental/sysmib.py:293-301 | `Counter64` exactly for `TYPE_INT64` and `TYPE_BOOL`, `DisplayString` otherwise, always one of `AttributeType` |
| MibBuild.TitleCase | experimental/sysmib.py:303-312 | the result of `parse_name` is alphanumeric only |
| MibBuild.TitleCaseShorter | experimental/sysmib.py:303-312 | `parse_name` never lengthens its input |
| MibBuild.TitleCaseOfWords | experimental/sysmib.py:307-312 | for alphanumeric words joined by single spaces, `parse_name` is the concatenation of the words with their first letters capitalised |
| SysMib.Mib.ParseName | experimental/sysmib.py:303-312 | the loop over the words computes `TitleCase` |
| MibBuild.AttrObject | experimental/sysmib.py:314-327 | the object is named `ntxAlert` followed by alphanumerics, has a syntax from `AttributeType`, and takes the counter it is given |
| SysMib.Mib.AlertAttrToObject | experimental/sysmib.py:314-327 | builds `AttrObject` with the attribute's type name and the next object OID |
| SysMib.Mib.AddObjectFromAttribute | experimental/sysmib.py:371-375 | the new state is that of `add_object` of the built object |
| MibBuild.AttrObjectOidFresh | experimental/sysmib.py:325-326 | the built object's counter is above every registered object's, and registering it moves the counter on by exactly one |
| MibBuild.TrapName | experimental/sysmib.py:334-336 | `ntxTrap` plus the title case of the title when that fits in 64 characters, `ntxTrap` plus the alert id otherwise |
| MibBuild.ShortTitleNamesTrap | experimental/sysmib.py:334-336 | an alert whose title has at most 57 characters is named from its title |
| MibBuild.AlertTrap | experimental/sysmib.py:329-347 | the trap has that name, the names of all registered objects in order, status `current`, the description (or the name with `_` as spaces) in `" … ."`, and the counter given |
| SysMib.Mib.AlertToTrap | experimental/sysmib.py:329-347 | builds `AlertTrap` with the registered objects and the next trap OID |
| MibBuild.AlertTrapOidFresh | experimental/sysmib.py:345-346 | the built trap's counter is above every registered trap's, and registering it moves the counter on by exactly one |
| MibBuild.SameNameRegisteredOnce | experimental/sysmib.py:271-277 | two alerts giving the same trap name register one trap: the second `add_trap(alert_to_trap(…))` changes nothing |
| MibBuild.FirstTrapNamed | experimental/sysmib.py:355-357 | the first trap with that name, None exactly when no trap has it |
| SysMib.Mib.FindTrapNamed | experimental/sysmib.py:355-357 | the loop returns `FirstTrapNamed` |
| SysMib.Mib.FindTrapForAlert | experimental/sysmib.py:351-357 | the lookup as written, with the prefix `NtxTrap` |
| SysMib.Mib.FindTrapForAlertCorrected | experimental/sysmib.py:351-357 | the lookup with the prefix `ntxTrap` that `alert_to_trap` gives |
| MibEmit.TerminatedIsJoin | experimental/sysmib.py:232-239 | the `objdef + ', '` loop, less its last two characters, is `', '.join(objects)` |
| SysMib.Mib.DumpTrapFile | experimental/sysmib.py:228-242 | the trap text lists the objects joined by `, ` |
| SysMib.Mib.DumpObjList | experimental/sysmib.py:244-251 | the concatenation of every registered object's block, in order |
| SysMib.Mib.DumpTrapList | experimental/sysmib.py:253-260 | the concatenation of every registered trap's block, in order |
| MibEmit.ParseObjectOid | experimental/sysmib.py:222-225 | `parseOID` reads back, from the written `::= {…}` line, an OID whose dots were written as spaces |
| MibEmit.NumberOfTrapLine | experimental/sysmib.py:237-238 | `number` reads back the counter from the written trap `::=` line |
| MibEmit.ParseTrapOid | experimental/sysmib.py:237-238 | `parseOID` reads `nutanix.<counter>` from the written trap `::=` line |
| MibEmit.BuiltObjectReadBack | experimental/sysmib.py:222-225 | for an object built from an attribute, its written `::=` line reads back, after `rstrip`, as its counter and its OID |
| MibEmit.BuiltTrapReadBack | experimental/sysmib.py:237-241 | for a trap built from an alert, its written `::=` line reads back as its counter and its OID `nutanix.<counter>` |
| MibEmit.SyntaxReadBack | experimental/sysmib.py:112-119 | `refinesyntax` reads back the syntax written on a SYNTAX line, for any one-word syntax |
| MibEmit.BuiltSyntaxReadBack | experimental/sysmib.py:219-220 | every syntax `selecttype` chooses reads back from its written SYNTAX line |
| MibEmit.FirstIndex | experimental/sysmib.py:401-402 | the first line equal to the sentinel line, None exactly when there is none |
| MibEmit.Splice | experimental/sysmib.py:401-411 | without the sentinel line the file is unchanged; with it, the lines before its first occurrence are kept and that line is followed by the text and `END` |
| MibEmit.SpliceAt | experimental/sysmib.py:401-411 | at the first sentinel line `k`, the new file is the first `k` lines plus one line holding the sentinel, the dumps and `END` |
| MibEmit.SpliceDropsTail | experimental/sysmib.py:408-411 | everything after the sentinel line is dropped: the new file is no longer than that line's position + 1 and, but for its last line, a prefix of the old file |
| SysMib.Mib.ApplyChangesFile | experimental/sysmib.py:390-415 | the new file content is `Splice` of the file with the object dump followed by the trap dump |
| MibReadBack.SentinelStep | experimental/sysmib.py:161-166 | a line that reads as the sentinel after `rstrip` moves the reader past the sentinel and changes nothing else |
| MibReadBack.ObjectHeaderStep | experimental/sysmib.py:172-176 | the written `<name>    OBJECT-TYPE` line starts a fresh object with that name |
| MibReadBack.TrapHeaderStep | experimental/sysmib.py:177-182 | the written `<name>   NOTIFICATION-TYPE` line starts a fresh trap with that name |
| MibReadBack.SyntaxStep | experimental/sysmib.py:186-187 | the written SYNTAX line gives back the object's syntax |
| MibReadBack.MaxAccessStep | experimental/sysmib.py:188-189 | the written MAX-ACCESS line gives back the access |
| MibReadBack.ObjectStatusStep | experimental/sysmib.py:190-191 | the written STATUS line gives back the object's status |
| MibReadBack.ObjectDescriptionStep | experimental/sysmib.py:192-194 | the written DESCRIPTION line gives back a description quoted once |
| MibReadBack.ObjectAssignStep | experimental/sysmib.py:195-199 | the written `::= {…}` line registers the object with the line's first number as counter and its OID |
| MibReadBack.QuotedLine | experimental/sysmib.py:135-146 | `read_string_end` on a line with exactly two quotes returns the text between them |
| MibReadBack.ObjectsListRead | experimental/sysmib.py:121-133 | `findlist` on the written OBJECTS line, when no `}` comes before the `::=` line, returns the members with whitespace removed, split at `,` |
| MibReadBack.MembersRead | experimental/sysmib.py:121-133 | for names without whitespace or `,`, `findlist` gives back the names `dump_trap_file` joined with `, `, or one empty name for an empty list |
| MibReadBack.TrapObjectsStep | experimental/sysmib.py:202-203 | the written OBJECTS line gives the trap the list `findlist` returns |
| MibReadBack.TrapStatusStep | experimental/sysmib.py:204-205 | the written STATUS line gives back the trap's status |
| MibReadBack.TrapDescriptionStep | experimental/sysmib.py:206-208 | the written DESCRIPTION line gives back a description quoted once |
| MibReadBack.TrapAssignStep | experimental/sysmib.py:209-213 | the written `::= { nutanix <counter>}` line registers the trap with that counter and OID `nutanix.<counter>` |
| MibReadBack.ObjectBlockRead | experimental/sysmib.py:215-226 | after the sentinel, the seven lines of an object's block register the object as read back, whatever record was in progress |
| MibReadBack.TrapBlockRead | experimental/sysmib.py:228-242 | after the sentinel, the six lines of a trap's block register the trap as read back |
| MibReadBack.ObjectBlockReadsBack | experimental/sysmib.py:154-226 | `read_file` over the sentinel and the block `dump_object_file(o)` writes registers an object comparing equal to `o` that differs from it at most in the counter; exactly `o` when the first number of the `::=` line is its counter |
| MibReadBack.TrapBlockReadsBack | experimental/sysmib.py:154-242 | `read_file` over the sentinel and the block `dump_trap_file(t)` writes registers a trap comparing equal to `t`, with the members `findlist` reads and OID `nutanix.<counter>`; exactly `t` when it has members and that OID |
| MibReadBack.AttrObjectReadable | experimental/sysmib.py:314-327 | every object `alertattr_to_object` builds has one-word fields, a description quoted once and an OID line whose number is its counter |
| MibReadBack.BuiltObjectReadsBack | experimental/sysmib.py:215-226 | the block written for any object `alertattr_to_object` built reads back as exactly that object |
| MibReadBack.BuiltTrapReadsBack | experimental/sysmib.py:228-242 | the block written for a trap `alert_to_trap` built reads back as that trap when objects were registered before it, with one empty member name otherwise |
| MibReadBack.DescriptionOvershoot | experimental/sysmib.py:139-144 | on a DESCRIPTION line holding three or more quotes the count never equals two and the reader raises |
| MibReadBack.QuotedDescriptionCrashes | experimental/sysmib.py:340-344 | a trap whose alert text holds a `"` makes `read_file` raise on its DESCRIPTION line, registering nothing |
| MibBuild.QuoteSafeAlertTrap | experimental/sysmib.py:329-347 | the trap of `alert_to_trap` with the text's `"` written as `'`: its description is quoted once, and every other field is that of `AlertTrap` |
| SysMib.Mib.AlertToTrapCorrected | experimental/sysmib.py:329-347 | builds `QuoteSafeAlertTrap` with the registered objects and the next trap OID |
| MibReadBack.QuoteSafeTrapReadsBack | experimental/sysmib.py:329-347 | the block written for the quote-safe trap of every alert reads back, whatever quotes its text holds |
| MibReadBack.SentinelNeedsExactLine | experimental/sysmib.py:161-165 | a sentinel line ending in CR LF is accepted by `read_file`, after `rstrip`, yet `apply_changes_file` leaves that file unchanged |
| UtilsMib.FieldInfo | experimental/utils_mib.py:20-28 | a field's entry exists exactly when its type code is 1..14 and its label code 1..3; code 4 maps to the source's `TYPE_UNIT64` |
| UtilsMib.FirstUnknown | experimental/utils_mib.py:54-55 | the first field whose code is missing from `MAPTYPE` or `LABELTYPE`, where the loop raises `KeyError` |
| UtilsMib.Catalog | experimental/utils_mib.py:54-57 | after the loop, `severity` is `(TYPE_INT64, LABEL_OPTIONAL)` and `title` is `(TYPE_STRING, LABEL_OPTIONAL)` |
| UtilsMib.CatalogKeys | experimental/utils_mib.py:54-57 | the keys afterwards are the old keys, the field names, `severity` and `title` |
| UtilsMib.CatalogEntry | experimental/utils_mib.py:54-57 | any other name maps to the entry of its last field, and an untouched name keeps its old entry |
| UtilsMib.AssignEntry | experimental/utils_mib.py:54-55 | the loop leaves each field name with its last field's entry and every other key unchanged |
| UtilsMib.FirstUnknownAt | experimental/utils_mib.py:54-55 | the first unknown field is where the loop stops |
| UtilsMib.AttributeCatalog.AddAttribute | experimental/utils_mib.py:45-57 | succeeds exactly when every field is known and then leaves `Catalog` of the old table; otherwise the table holds the fields before the first unknown one |

## Left out

- `experimental/traverse.py` is not part of this model.
- `load_config_file` and `add_trap_from_alert` are left out. They read a protobuf text file. An alert is modelled by the fields `alert_to_trap` reads: title, id, optional description and name.
- `main` is left out, and so is the hard-coded path it opens.
- `list_traps` is left out: it only returns the list.
- `list_objects` is left out: it names its parameter `slef`, so it raises `NameError` on any call.
- File I/O is left out. `read_file` takes the file's lines. `apply_changes_file` returns the new lines instead of rewriting the file, so overwriting in place is not modelled.
- SysMib.Mib.constructor: does not call `read_file`. `ReadFile` is called as a separate method.
- SysMib.Mib: `Objectlist`, `Traplist` and the counters are class attributes in Python, shared by every instance until one assigns to them. Here they are per-instance fields.
- Records are values. So the model leaves out aliasing: the object in progress in `read_file` is the same Python object as the one registered, and a later field line would change it.
- `readlines` is not modelled. The read-back lemmas take the template's own lines, so a field holding a line end is outside them.
- MibReadBack.ObjectBlockReadsBack: stated for objects whose name, syntax, access and status are single words that do not read as a key or header word. The description must be quoted once. Other objects are written fine but read back differently.
- MibReadBack.TrapBlockReadsBack: stated for traps whose member names are words without `,`, and that have no `}` before the `::=` line, where `findlist` stops.
- MibRegistry.Registry.DelObject: `in` and `remove` compare records by identity, since the classes define no `__eq__`. Here they compare by value, so two equal-valued records are one.
- MibRegistry.Registry.DelTrap: same identity-versus-value difference as `DelObject`.
- Text.ToUpper: upper-cases ASCII letters only. The titles `parse_name` receives come from protobuf `unicode` strings, whose `upper()` uses Unicode case mapping (`u'ı'.upper()` is `I`). That mapping is not modelled.
- UtilsMib.AttributeCatalog.AddAttribute: a message's descriptor fields are given as (name, type code, label code) triples. `str(field.type)` is taken as the decimal form of the code, so the table is keyed by the integer.
- SysMib.Mib.AlertAttrToObject: takes the global `ATTRIBUTE` table as a parameter. Its `requires attr in attribute` stands for the `KeyError` the source raises otherwise.
- MibBuild.TrapName: `alert_id` is taken in its `str()` form.
- `read_file`: an `IndexError` raised by a helper on a malformed file becomes a final crashed state. The exception itself is not modelled.
- `read_file`: `re.findall(r'\d+')` and `re.sub('\s', …)` are modelled on the ASCII digits and the six ASCII whitespace characters of Python 2 `str`.

## Findings

| source | as written | input that shows it | evidently intended | confidence | as-written member | corrected member |
|---|---|---|---|---|---|---|
| experimental/sysmib.py:356 | `find_trap_for_alert` looks for `'NtxTrap' + parse_name(alertname)`, capital `N` | any alert whose title has at most 57 characters: after `add_trap(alert_to_trap(alert))`, looking the alert up by its title returns None, because every trap `alert_to_trap` names starts with `ntxTrap` (line 334) | the prefix `ntxTrap`, the one `alert_to_trap` gives | not executed | MibBuild.AsWrittenMissesBuiltTrap | MibBuild.CorrectedFindsBuiltTrap |
| experimental/sysmib.py:340-344 | `alert_to_trap` writes the alert's text between `" ` and ` ."` as it is; `read_string_end` (lines 139-144) reads until the running count of `"` is exactly 2 | an alert whose description holds a `"`, such as `disk "sda" failed`: the DESCRIPTION line has four quotes, so the count passes 2 without ever equalling it. Once the trap is written to the file, the next `read_file` of that file raises IndexError | the description read back, with the text's quotes written as `'` | not executed | MibReadBack.QuotedDescriptionCrashes | MibReadBack.QuoteSafeTrapReadsBack |
