# Hare HA core types and Dhall literals, in Dafny

This project models two parts of the cortx-hare repository.

The first is the value layer of the hax HA monitor (`hax/hax/types.py`):
- Motr fids, with their text form, their parser, the null test and structural equality.
- The table from conf object type (`ObjT`) to fid container tag.
- The object health enumeration (`ObjHealth`), with its conversion to and from the `no_state` codes of a Motr HA note.
- The process lifecycle events and process types, with their strict lookups by name, and the table from event to service health.
- The `m0HaObjState` enumeration and its parser.
- `MessageId` and `HaLinkMessagePromise`, the set of HA link messages of one batch whose delivery is not yet confirmed.

The second is the set of renderers in `provisioning/miniprov/hare_mp/types.py`. They print a cluster description as Dhall source text. The model covers `Maybe`, `DList`, `Text`, `DhallTuple`, `Protocol`, `PoolType` and the message of `MissingKeyError`.

Layout, one module per component:
- `wrappers.dfy`: `Option`, `Result` and Python's `KeyError`.
- `numerals.dfy`: digit strings. This covers the hex and decimal formatting of non-negative ints and the digit reading of `int(s, base)`.
- `strings.dfy`: `str.split(sep, 1)` and `str.join`.
- `fid.dfy`: `Fid`.
- `objtypes.dfy`: `ObjT`.
- `health.dfy`: the note state constants of `HaNoteStruct`, `ObjHealth` and `m0HaObjState`.
- `process.dfy`: `m0HaProcessEvent` and `m0HaProcessType`.
- `messaging.dfy`: `MessageId` and `HaLinkMessagePromise`.
- `dhall.dfy`: the Dhall renderers.

`HaLinkMessagePromise` is a class with a `set<MessageId>` field. Its `ExcludeIds` method discards the ids one at a time in a loop, as the source does. It is proved against `Discarded`, a function of the old set and the list. The lemmas about `Discarded` show that the final set is the old set minus the listed ids. They also show that calls commute, that they can be regrouped and repeated, and that the promise becomes empty exactly when the confirmed ids cover the batch. Everything else is pure and is modelled with datatypes and functions. `from_ha_note_state` is a search that returns at the first member with the wanted note state. It is modelled as the recursive function `FirstWithNote` over the members in declaration order.

Facts about the code that the model keeps as they are:
- `Fid.parse` does not check that either half fits in 64 bits. Python ints are unbounded, so fids here have unbounded natural fields.
- `int(s, 16)` accepts an optional `0x`/`0X` prefix and digits in either case. That is why the printed form `0x..:0x..` parses back.
- Every half is converted before the tuple is unpacked. So an input without `:` whose only half is not hex fails on the hex conversion, not on the unpack.
- `m0HaObjState` declares no member for `M0_NC_REPAIR` (code 4). Parsing that name fails.
- `HaLinkMessagePromise` holds a plain `set` with no lock, so the model is sequential.

## Model

| member | source | states |
|---|---|---|
| Numerals.Format | hax/hax/types.py:131-132 | hex digits as `{n:x}` prints them: non-empty, lower case, no leading zero |
| Numerals.Value | hax/hax/types.py:115 | digit reading of `int(s, 16)`: defined exactly when the text is non-empty and every character is a digit of the base, in either case |
| Numerals.ValueOfFormat | hax/hax/types.py:115-132 | reading back the printed digits of n gives n |
| Numerals.FormatInjective | hax/hax/types.py:131-132 | different numbers print different digits |
| Numerals.ValueIgnoresCase | hax/hax/types.py:115 | digits are read alike in upper and lower case |
| Numerals.ValueLeadingZero | hax/hax/types.py:115 | a leading zero does not change the number read |
| Numerals.FormatOfValue | hax/hax/types.py:115-132 | lower-case digits without a leading zero are exactly the printed digits of the number they denote |
| Numerals.ValueCanonical | hax/hax/types.py:115 | the number `int(s, base)` returns is the one whose printed digits are s in lower case with its leading zeros dropped |
| Numerals.Decimal | provisioning/miniprov/hare_mp/types.py:41 | `str()` of an int: a minus sign exactly for negatives, then lower digits with no leading zero that read back as the magnitude |
| Strings.SplitOnce | hax/hax/types.py:115 | `val.split(':', 1)`: one part exactly when there is no `:`, otherwise the text before the first `:` (which holds none) and the rest |
| Strings.SplitOnceOfJoined | hax/hax/types.py:115 | splitting `x:y` gives back x and y when x has no `:` |
| Strings.Join | provisioning/miniprov/hare_mp/types.py:41 | `', '.join`: empty for no parts, the part itself for one, the first part at the front, and the parts' total length plus one separator between each pair of neighbours |
| Strings.JoinAppend | provisioning/miniprov/hare_mp/types.py:41 | joining two non-empty groups equals joining each group and then the two results; with the one-part case this fixes the whole text |
| Fids.ParseHex | hax/hax/types.py:115 | `int(s, 16)` on the modelled grammar: succeeds exactly for an optional `0x`/`0X` prefix followed by one or more hex digits, and returns the number whose printed hex digits are those digits lower-cased without leading zeros |
| Fids.Repr | hax/hax/types.py:131-132 | `0x<container>:0x<key>` splits at its first `:` into the two prefixed hex halves |
| Fids.Parse | hax/hax/types.py:113-116 | parsing text without a `:` always fails |
| Fids.ParseWithoutColon | hax/hax/types.py:114-116 | without a `:`, a text that is not hex fails on the hex conversion, and a hex text fails on the unpack into two values |
| Fids.ParseAtFirstColon | hax/hax/types.py:114-116 | with the first `:` right after x, the fid is read from the two sides; a bad left side is reported before a bad right side |
| Fids.ParseRepr | hax/hax/types.py:113-132 | parsing `0x{c:x}:0x{k:x}` gives back `Fid(c, k)` |
| Fids.ReprInjective | hax/hax/types.py:131-132 | two fids with the same printed form are equal |
| Fids.IsNull | hax/hax/types.py:128-129 | `is_null` holds exactly when the fid prints as `0x0:0x0` |
| Fids.ZeroRepr | hax/hax/types.py:128-132 | only the fid with container and key 0 prints as `0x0:0x0` |
| Fids.Equals | hax/hax/types.py:134-136 | `==` holds exactly when the other operand is a Fid with the same container and key |
| Fids.GetCopy | hax/hax/types.py:125-126 | the copy is equal to the original in both directions and prints the same |
| ObjTypes.Container | hax/hax/types.py:37-52 | every container tag is the type letter in the top byte with 1 in the low 56 bits, below 2^64 |
| ObjTypes.FromContainer | hax/hax/types.py:33-53 | lookup by value: a type it returns has that container tag |
| ObjTypes.FromContainerInverts | hax/hax/types.py:33-53 | lookup by value inverts the table |
| ObjTypes.ContainerInjective | hax/hax/types.py:37-52 | no two object types share a container tag |
| ObjTypes.AllObjTComplete | hax/hax/types.py:33-53 | the declared list has the 16 types, each with its own tag |
| Health.MembersAreDistinct | hax/hax/types.py:220-228 | the eight members have pairwise distinct enum values, so none is an alias; the declared order lists each once |
| Health.ToHaNoteStatus | hax/hax/types.py:246-252 | always one of the codes 0..6 that a member carries, never M0_NC_NR |
| Health.ToHaNoteStatusCollision | hax/hax/types.py:224-225 | only OFFLINE and STOPPED share a note state |
| Health.FirstWithNote | hax/hax/types.py:240-244 | the search returns the first position whose member has the wanted note state, or nothing when none has it |
| Health.FromHaNoteState | hax/hax/types.py:234-244 | the result has the wanted note state and is declared no later than any member that has it; UNKNOWN when no member has it |
| Health.FromHaNoteStateTable | hax/hax/types.py:234-244 | codes 0..6 map to their first declared member (3 to OFFLINE); every other integer maps to UNKNOWN |
| Health.HealthRoundTrip | hax/hax/types.py:220-252 | health to code and back is the identity except STOPPED, which comes back as OFFLINE |
| Health.NoteStateRoundTrip | hax/hax/types.py:234-252 | code to health and back is the identity exactly on the codes 0..6 |
| Health.ParseObjState | hax/hax/types.py:322-334 | strict lookup by member name; an unknown name raises KeyError carrying that name |
| Health.ParseObjStateName | hax/hax/types.py:310-334 | every member is found under its name; `M0_NC_REPAIR` is not a member name |
| Health.ObjStateAsHealth | hax/hax/types.py:310-317 | every m0HaObjState code except M0_NC_NR survives the trip through ObjHealth; M0_NC_NR reads as UNKNOWN |
| ProcessLifecycle.EventFromName | hax/hax/types.py:264-274 | strict lookup of an event by name; KeyError carrying the name when no event has it |
| ProcessLifecycle.EventNameRoundTrip | hax/hax/types.py:258-277 | each event is found under its own name and under no other |
| ProcessLifecycle.EventToSvcHealth | hax/hax/types.py:279-285 | every event maps to OK or FAILED |
| ProcessLifecycle.EventHealthNoteState | hax/hax/types.py:279-285 | STARTING and STARTED give OK (note ONLINE); STOPPING and STOPPED give FAILED (note FAILED); the health survives the note-state round trip |
| ProcessLifecycle.TypeFromName | hax/hax/types.py:294-304 | strict lookup of a process type by name; KeyError carrying the name otherwise |
| ProcessLifecycle.TypeNameRoundTrip | hax/hax/types.py:288-307 | each process type is found under its own name and under no other; the values are distinct |
| Messaging.MessageIdRepr | hax/hax/types.py:198-199 | `MessageId(0x<ctx>, <tag>)`: between the prefix and the `)`, the first `,` splits the text into the hex context and, after a space, the decimal tag, exactly the lower-case hex digits of the context and the decimal digits of the tag, each reading back as the field |
| Messaging.MessageIdReprInjective | hax/hax/types.py:194-199 | two message ids with the same printed form are equal |
| Messaging.Discarded | hax/hax/types.py:206-208 | discarding a list one id at a time leaves exactly the old set minus the listed ids |
| Messaging.DiscardedShrinks | hax/hax/types.py:206-208 | the outstanding set never grows, and ids that are not listed stay |
| Messaging.DiscardedGrouping | hax/hax/types.py:206-208 | two calls act as one call with the concatenated list |
| Messaging.DiscardedCommutes | hax/hax/types.py:206-208 | the order of two calls does not matter |
| Messaging.DiscardedIdempotent | hax/hax/types.py:206-208 | repeating a call changes nothing |
| Messaging.DiscardedBatchesComplete | hax/hax/types.py:202-214 | after any sequence of calls the set is the batch minus every confirmed id, and it is empty exactly when the confirmed ids cover the batch |
| Messaging.HaLinkMessagePromise.constructor | hax/hax/types.py:203-204 | the outstanding set is the set of the given ids, duplicates collapsed |
| Messaging.HaLinkMessagePromise.ExcludeIds | hax/hax/types.py:206-208 | the new set is the old set with the listed ids discarded; absent ids are ignored |
| Messaging.HaLinkMessagePromise.IsEmpty | hax/hax/types.py:210-211 | true exactly when no id is outstanding |
| Messaging.HaLinkMessagePromise.Contains | hax/hax/types.py:213-214 | true exactly when the id is outstanding |
| Dhall.Maybe.Get | provisioning/miniprov/hare_mp/types.py:19-20 | returns the wrapped value: the one the text shows after `Some (`, or nothing when the text is `None (<comment>)` |
| Dhall.Maybe.ToString | provisioning/miniprov/hare_mp/types.py:13-17 | `None (<comment>)` when absent, `Some (<value>)` when present; the comment never shows beside a value |
| Dhall.DList.GetItem | provisioning/miniprov/hare_mp/types.py:31-32 | item i for 0 <= i < len, item i + len for a negative i down to -len, IndexError otherwise |
| Dhall.LenIndexes | provisioning/miniprov/hare_mp/types.py:31-35 | `len` bounds indexing: len and -len - 1 are out of range, and i and i - len name the same item i for every i below len |
| Dhall.DList.ToString | provisioning/miniprov/hare_mp/types.py:37-41 | an empty list prints `[] : <comment>`; a one-item list prints `[<item>]`; any other list stands in brackets |
| Dhall.RenderAllAt | provisioning/miniprov/hare_mp/types.py:41 | the i-th rendered string is the i-th item's text |
| Dhall.DListAppendLayout | provisioning/miniprov/hare_mp/types.py:37-41 | appending to a non-empty list inserts `, <item>` before the closing bracket, whatever the comments; with the one-item layout this fixes the whole text |
| Dhall.DhallTuple.ToString | provisioning/miniprov/hare_mp/types.py:61-67 | the text stands between `{ ` and ` }`; no fields print `{  }`, one field prints `{ name = value }` |
| Dhall.TupleAppendLayout | provisioning/miniprov/hare_mp/types.py:61-67 | a field added last prints last, after `, `, before ` }` |
| Dhall.Render | provisioning/miniprov/hare_mp/types.py:17 | `str()` of a field or item value is never empty, and a bool prints as `True` or `False` |
| Dhall.Text.ToString | provisioning/miniprov/hare_mp/types.py:83-84 | the string between double quotes, unchanged |
| Dhall.TextNotEscaped | provisioning/miniprov/hare_mp/types.py:83-84 | with no escaping, two different lists of texts can print the same |
| Dhall.Protocol.ToString | provisioning/miniprov/hare_mp/types.py:48-49 | `P.` followed by the member's name |
| Dhall.PoolType.ToString | provisioning/miniprov/hare_mp/types.py:57-58 | `T.PoolType.` followed by the member's name |
| Dhall.EnumLayouts | provisioning/miniprov/hare_mp/types.py:44-58 | distinct protocols, and distinct pool types, print distinctly |
| Dhall.MissingKeyError.ToString | provisioning/miniprov/hare_mp/types.py:190-191 | the message is `Required key '<key>' not found at URL: <url>`, with the key at offset 14 and the url at the end |

## Left out

- Native structure layouts (`FidStruct`, `Uint128Struct`, the fields of `HaNoteStruct`, `Fid.to_c`, `Fid.from_struct`, `Uint128`): foreign memory marshalling. Only the note state constants are kept.
- `Fid.for_json`: it returns the same text as `__repr__`, which is modelled.
- `Fid.parse` input forms beyond the modelled grammar: `int(s, 16)` also accepts a sign, surrounding whitespace, underscores between digits and non-ASCII Unicode digits. Negative fields are not modelled.
- `MessageId` fields are natural numbers: a negative `halink_ctx` or `tag`, which Python would print with a `-`, is not modelled.
- `HaLinkMessagePromise.__repr__`: it prints a Python set, whose order is not determined.
- Concurrent use of `HaLinkMessagePromise`: the code holds no lock, and the model is sequential.
- `StoppableThread`: a threading shim with no behaviour.
- Passive records with no logic: `ConfHaProcess`, `FsStats`, `FsStatsWithTime` (which holds a float timestamp), `SnsCmStatus`, `ReprebStatus`, `HaNote`, `StobId`, `HAState`, `Profile`, `KeyDelete`, and `Layout` in the Dhall module.
- The concrete `DhallTuple` subclasses (`Disk`, `NodeDesc`, `PoolDesc` and the others): their field lists come from `dataclasses.fields` reflection. A record is modelled as an explicit list of fields in declaration order.
- Plain Python values other than int and bool inside a `Maybe`, a `DList` or a record field. For example, `fdmi_filter_info` holds a plain `List`, which Python prints with `repr`. Such values are not modelled.
- Dhall.Render: its own contract says the text is never empty and that a bool prints as `True` or `False`; for the other kinds of value, what is printed is stated by the contracts of the `ToString` members and of `Numerals.Decimal` that it delegates to.
- `DList.__getitem__` with a slice: only integer indices are modelled.
- The template test harness in `provisioning/miniprov/test/test_templates.py`: file I/O, mocks and generators that are not part of this model.
