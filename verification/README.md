# GMP message hub — a Dafny model

This project models the core of the Generic Message Plugin (GMP). GMP is an
in-process publish/subscribe bus for Unreal Engine: listeners connect to
message keys, senders notify them synchronously, and requests wait for a
single response. The model covers four parts.

- **The type-signature registry** (`Signatures`). There are four tables: sends
  and receives, each kept for parameters and for single-shot responses. They
  map a message key to the list of type names recorded for it.
  - `IsSameType` compares two lists position by position. It accepts a
    position on equality, the skip-validate marker, an invalid or `None`
    name, or an enum/integer match in either order.
  - When one name derives from the other, a stored (mutable) slot holding
    the derived name is overwritten with the base name.
  - `ProcessTypes` applies the length policy: receivers may not declare more
    names than senders. It then replaces the stored list when that list was
    absent or is superseded.
  - `DoesSignatureCompatible` runs `ProcessTypes` for the response lists,
    then for the parameter lists.
- **The hub state machine** (`MessageHub`). It covers:
  - the per-hub signal map, the callback marks and the message-body stack;
  - the pending-response table, the sequence-id allocator (`SequenceIds`),
    the per-(key, source) reentrancy counter (`RecursionGuard`) and the
    256-slot call-history ring (`CallHistory`);
  - Notify, Request, Respond, Listen, the three Unbind overloads, both
    `IsAlive` queries, `GetCurrentMessageBody`, and the map-load and
    play-session hooks that empty the tables.

  Handlers call back into the hub while a message is being dispatched. This
  is modelled as a tree of operations: a dispatch carries what its handlers
  do, and a response carries what its callback does.
- **The type-name generator** (`Class2Name`). It names a type described by a
  `TypeDesc`:
  - enum prefixes chosen by byte size, with `enum class` forced to one byte;
  - the container names `TArray<…>`, `TSet<…>`, `TMap<…,…>` and `TOptional<…>`;
  - the ban on directly nested containers;
  - the fixed primitive names;
  - the collapse of every object class to `UObject` in non-exact mode.
- **JSON helper values** (`JsonValues`):
  - `StringView`, whose signed length tags the character width;
  - `FStrIndexPair`, with its truth test and `Append`;
  - both `AddKeyValue` overloads.

Collaborators the sources do not define are parameters:
- the reflection queries `IsDerivedFrom`, `MatchEnums` and `FindCommonBase`;
- the signal store (`MakeSignals`, `Connect`, `Disconnect`, `FireWithSigSource`
  and its `IsAlive` queries);
- `UGMPMeta::GetSvrMeta` and `FMessageBody::ToString`;
- the JSON builder's `Key` and `Value` writers.

Build switches are fields of `Config`: `GIsEditor`, `GMP_WITH_DYNAMIC_CALL_CHECK`
and `GMP_WITH_TYPENAME`.

Four points of the code that shape the model:
- **The derived-class rewrite** (`GMPHub.cpp:820-840`). When a stored slot
  holds a name derived from the incoming one, the slot is overwritten with the
  incoming base name, so the stored list becomes more general.
- **A request on a key without a callback mark** (`GMPHub.cpp:297-300`,
  `:332`). The hub neither stores nor dispatches anything and returns the
  empty key.
- **The name on a response body** (`GMPHub.cpp:1025`). It is the
  responder's message name (`GetRec`), not the original request key.
- **The ring size** (`GMPHub.cpp:131-133`). The history ring holds
  `1 << 8` = 256 entries, although the comment beside the constant says 128.

The hub records its call history with the corrected ring of the first
finding below, so its newest entry lists only the newest call's keys.
`CallHistory.AsWrittenDiffersOnlyInRecycledRecords` shows that the ring as
written differs from it only in the records of a recycled slot.

## Model

| member | source | states |
|---|---|---|
| `Signatures.IsSameType` | Plugins/GMP/Source/GMP/Private/GMPHub.cpp:796-843 | a false precondition fails without touching either list; otherwise the verdict is true iff every position below the shorter length is accepted by some rule; const lists and positions past the shorter length are never changed; without the common-base fix-up the only rewrite is a mutable slot holding a derived name taking the base name |
| `Signatures.CompareFrom` | Plugins/GMP/Source/GMP/Private/GMPHub.cpp:800-842 | the loop from position i keeps both lengths and succeeds iff no remaining position is a mismatch |
| `Signatures.CompareFromFrame` | Plugins/GMP/Source/GMP/Private/GMPHub.cpp:800-842 | the loop leaves const lists, earlier positions and positions past the shorter length unchanged |
| `Signatures.CompareFromRewrites` | Plugins/GMP/Source/GMP/Private/GMPHub.cpp:820-840 | every slot the loop changes is mutable and takes either the other side's base name or the common base |
| `Signatures.CompareFromSettles` | Plugins/GMP/Source/GMP/Private/GMPHub.cpp:803-829 | when the loop succeeds, each examined position holds its settled name |
| `Signatures.ExtraTrailingNamesIgnored` | Plugins/GMP/Source/GMP/Private/GMPHub.cpp:800-801 | appending names to the longer list never changes the verdict |
| `Signatures.AgainstOpposite` | Plugins/GMP/Source/GMP/Private/GMPHub.cpp:851-857 | against the other side's list, the registration passes iff it fits the length policy and is compatible; only the other side's entry for the key may change, and its length stays the same |
| `Signatures.AgainstOwn` | Plugins/GMP/Source/GMP/Private/GMPHub.cpp:859-870 | a repeated registration passes iff it is compatible with the list already on its own side |
| `Signatures.Record` | Plugins/GMP/Source/GMP/Private/GMPHub.cpp:871-874 | the incoming list is stored when the key is absent or the incoming list supersedes the stored one (longer for receives, shorter for sends); otherwise the stored list stays |
| `Signatures.FinalCheck` | Plugins/GMP/Source/GMP/Private/GMPHub.cpp:905-914 | with both sides recorded, the verdict is true iff the receive list is no longer than the send list and compatible with it; on success the out-pointer designates the own side's list |
| `Signatures.ProcessTypes` | Plugins/GMP/Source/GMP/Private/GMPHub.cpp:845-915 | a receive longer than the stored send list fails, and so does a send shorter than the stored receive list; a registration incompatible with either stored list fails; other keys are untouched; the stored receive list never shrinks and the stored send list never grows; on success receivers declare no more names than senders; a key recorded on neither side registers and stores the incoming list itself |
| `Signatures.ProcessTypesKeepsConsistent` | Plugins/GMP/Source/GMP/Private/GMPHub.cpp:845-915 | whatever the verdict, tables in which every receive list is no longer than its send list stay that way |
| `Signatures.DoesSignatureCompatible` | Plugins/GMP/Source/GMP/Private/GMPHub.cpp:917-935 | response lists are reconciled first, and a failure there leaves the parameter tables alone; the check succeeds iff every given list reconciles; once the response step passes, the parameter tables are those reconciliation left; an absent parameter list reports the stored one |
| `Signatures.IsSignatureCompatible` | Plugins/GMP/Source/GMP/Private/GMPHub.cpp:1030-1049 | reconciles the parameter tables only and reports the list the out-pointer designates |
| `Signatures.IsSingleshotCompatibleAsWritten` | Plugins/GMP/Source/GMP/Private/GMPHub.cpp:1051-1070 | the verdict and the response tables are those of reconciling the response list, the parameter tables are untouched, but on success it reports the parameter list of its own side |
| `Signatures.FreshTablesAcceptAnyList` | Plugins/GMP/Source/GMP/Private/GMPHub.cpp:845-915 | with every table empty, any list registers on either side, is stored as the only entry of its own side and leaves the other side empty |
| `Signatures.IsSingleshotCompatible` | Plugins/GMP/Source/GMP/Private/GMPHub.cpp:1051-1070 | reconciles the response tables only and on success reports the response list it recorded |
| `SignatureScenarios.ReceiverRegistrationsKeepBase` | Plugins/GMP/Source/GMP/Private/GMPHub.cpp:820-828 | receivers `(A, Base)`, `(A, Derived)`, `(A, Base)` all succeed and `(A, Base)` stays stored, because the incoming list is const |
| `SignatureScenarios.StoredDerivedSlotTakesBase` | Plugins/GMP/Source/GMP/Private/GMPHub.cpp:825-828 | a stored receive list `(A, Derived)` becomes `(A, Base)` when `(A, Base)` is registered |
| `SignatureScenarios.LongerReceiverRefused` | Plugins/GMP/Source/GMP/Private/GMPHub.cpp:851-857 | a receiver of two names is refused when the sender recorded one |
| `SignatureScenarios.SingleshotReportsParameterList` | Plugins/GMP/Source/GMP/Private/GMPHub.cpp:1056-1059 | the response check reports `(A)`, the parameter list, where the response list `(Base)` was reconciled |
| `SequenceIds.NextSequenceId` | Plugins/GMP/Source/GMP/Private/GMPHub.cpp:226-232 | the counter stays an int64; before it wraps, the id is positive and above the previous counter, and the next call starts at or above it |
| `SequenceIds.SuccessiveIdsIncrease` | Plugins/GMP/Source/GMP/Private/GMPHub.cpp:226-232 | two successive calls return strictly increasing positive ids |
| `SequenceIds.FirstIdIsOne` | Plugins/GMP/Source/GMP/Private/GMPHub.cpp:228-231 | the first call returns 1 and leaves 2 in the counter, so 2 is never handed out |
| `SequenceIds.WrappedCounterYieldsZero` | Plugins/GMP/Source/GMP/Private/GMPHub.cpp:228-230 | once the counter has wrapped round to -1 the empty id 0 is returned |
| `RecursionGuard.Enter` | Plugins/GMP/Source/GMP/Private/GMPHub.cpp:170-175 | the pair's count goes up by one, every other count is unchanged, and counts stay positive |
| `RecursionGuard.Exit` | Plugins/GMP/Source/GMP/Private/GMPHub.cpp:176-181 | the pair's count goes down by one and the entry is removed at zero; the key entry stays; other counts are unchanged |
| `RecursionGuard.EnterThenExitRestores` | Plugins/GMP/Source/GMP/Private/GMPHub.cpp:170-181 | a guard's lifetime restores the table, except that a new key may remain with an empty inner map |
| `RecursionGuard.ExitAfterNestedWorkRestores` | Plugins/GMP/Source/GMP/Private/GMPHub.cpp:170-181 | a guard that leaves after nested dispatches which kept every count still finds its entry, and leaving restores every count it found on entry |
| `RecursionGuard.QuietIffFirstEntry` | Plugins/GMP/Source/GMP/Private/GMPHub.cpp:170-182 | just after entering, the guard reads true iff no other dispatch of the pair was in flight |
| `CallHistory.AppendCallInfoAsWritten` | Plugins/GMP/Source/GMP/Private/GMPHub.cpp:144-157 | a call that reached nobody is not recorded; once the ring is full, the recycled slot's records are the evicted records followed by the new keys |
| `CallHistory.AppendCallInfo` | Plugins/GMP/Source/GMP/Private/GMPHub.cpp:144-157 | the ring stays well formed and grows until it holds 256 entries |
| `CallHistory.AppendCallInfoKeepsLastCalls` | Plugins/GMP/Source/GMP/Private/GMPHub.cpp:131-157 | read oldest first, the ring is a FIFO of the last 256 recorded calls: the new call is newest, and the oldest call falls off once the ring is full |
| `CallHistory.AsWrittenDiffersOnlyInRecycledRecords` | Plugins/GMP/Source/GMP/Private/GMPHub.cpp:148-156 | the two versions agree everywhere except the records of the recycled slot |
| `CallHistory.RecycledSlotKeepsEvictedRecords` | Plugins/GMP/Source/GMP/Private/GMPHub.cpp:148-156 | after 256 one-key calls, the newest entry of the 257th call lists the evicted key as well |
| `MessageHub.WithSignal` | Plugins/GMP/Source/GMP/Private/GMPHub.cpp:58-71 | the key then has a signal; existing signals and every other field are untouched |
| `MessageHub.Admit` | Plugins/GMP/Source/GMP/Private/GMPHub.cpp:297-300 | a request is admitted iff its responder is bound, the key has a callback mark and the id is not pending; admission adds exactly one pending entry and changes nothing else |
| `MessageHub.RecordKeepsLastCalls` | Plugins/GMP/Source/GMP/Private/GMPHub.cpp:143-156 | the key gets a history ring if it had none (`FindOrAdd` at line 493); a call that reached no one leaves an existing ring alone; otherwise the ring lists the key's earlier calls, minus the oldest once 256 are held, followed by this call's source, text and reached ids; other keys' rings are untouched |
| `MessageHub.Dispatch` | Plugins/GMP/Source/GMP/Private/GMPHub.cpp:478-499 | the body stack and every recursion count are as they were before, whatever the handlers did; the first event is the firing of this body with the keys firing reached |
| `MessageHub.NotifyImpl` | Plugins/GMP/Source/GMP/Private/GMPHub.cpp:476-502 | returns the allocator's next id, positive and above the counter while it has not wrapped; the dispatched body carries that id; the dispatch is balanced |
| `MessageHub.RequestImpl` | Plugins/GMP/Source/GMP/Private/GMPHub.cpp:295-333 | a request that is not admitted leaves the hub unchanged, fires nothing and returns 0; an admitted one fires its body and returns the responder's id |
| `MessageHub.ResponseTypes` | Plugins/GMP/Source/GMP/Private/GMPHub.cpp:1000-1014 | the response types come from the given list, else the responder's metadata, else (with type names compiled in) the parameters' type names; there are none only when all three are missing |
| `MessageHub.ResponseCheck` | Plugins/GMP/Source/GMP/Private/GMPHub.cpp:1016-1023 | without a list to check, the response passes and the registry is untouched; otherwise it passes iff reconciling the list as a call succeeds |
| `MessageHub.RespondImpl` | Plugins/GMP/Source/GMP/Private/GMPHub.cpp:992-1028 | an unknown id does nothing; a known id is removed first; a failed check then invokes nothing, and a passed check invokes the callback once with a body named after the responder that carries the id |
| `MessageHub.ListenImpl` | Plugins/GMP/Source/GMP/Private/GMPHub.cpp:335-343 | the key then has a signal; other signals and every other field are untouched |
| `MessageHub.UnbindImpl` | Plugins/GMP/Source/GMP/Private/GMPHub.cpp:437-474 | a key without a signal is ignored; otherwise its callback mark is dropped, and the store is left alone when the id or listener is empty |
| `MessageHub.RunOp` | Plugins/GMP/Source/GMP/Private/GMPHub.cpp:285-293 | any operation (the map-load and play-session clears only where their hooks are registered), with all the reentrant work it triggers, leaves the body stack and every recursion count as it found them; callback marks only shrink; without requests the pending ids only shrink |
| `MessageHub.RunAll` | Plugins/GMP/Source/GMP/Private/GMPHub.cpp:304-308 | the same balance holds for any sequence of operations |
| `MessageHub.SecondRespondIsNoop` | Plugins/GMP/Source/GMP/Private/GMPHub.cpp:994-995 | after a response whose callback makes no request, a second response with the same id does nothing |
| `MessageHub.HandlerSeesNotifiedBody` | Plugins/GMP/Source/GMP/Private/GMPHub.cpp:481-485 | a handler that asks for the current body during a notification gets the notified body |
| `MessageHub.NoCurrentBodyAfterRun` | Plugins/GMP/Source/GMP/Private/GMPHub.cpp:234-237 | outside any dispatch there is no current body, and there is still none after any run |
| `MessageHub.UnbindRefusesLaterRequests` | Plugins/GMP/Source/GMP/Private/GMPHub.cpp:439-441 | after unbinding a key that has a signal, a request on that key is refused |
| `MessageHub.SignalOutlivesOperations` | Plugins/GMP/Source/GMP/Private/GMPHub.cpp:504-511 | a key that is alive for the empty id stays alive after any operation |
| `MessageHub.ListenMakesKeyAlive` | Plugins/GMP/Source/GMP/Private/GMPHub.cpp:337-338 | after a listen the key is alive for the empty id |
| `MessageHub.ResponseAfterMapLoadIsIgnored` | Plugins/GMP/Source/GMP/Private/GMPHub.cpp:1094-1105 | with the dynamic call check compiled in, any response after a map load does nothing; without it the map-load hook is not registered and a map load changes nothing |
| `MessageHub.RegistrationAfterMapLoadAccepted` | Plugins/GMP/Source/GMP/Private/GMPHub.cpp:1099-1104 | after a map load emptied the tables, any parameter or response list registers successfully |
| `MessageHub.UnbindLeavesOtherKeysAlone` | Plugins/GMP/Source/GMP/Private/GMPHub.cpp:437-517 | unbinding leaves both liveness answers of every other key unchanged, and of its own key too when the id is empty or the listener null |
| `MessageHub.AdmittedRequestWithoutHandlers` | Plugins/GMP/Source/GMP/Private/GMPHub.cpp:297-332 | an admitted request whose handlers do nothing fires once, with a body carrying the moved-from id, whatever that id is, and leaves exactly its own entry pending under the responder's id |
| `MessageHub.ResponseWithoutCallbackOps` | Plugins/GMP/Source/GMP/Private/GMPHub.cpp:992-1028 | a response to a pending id removes the entry and invokes the callback once iff the response passes its signature check |
| `MessageHub.RequestThenRespondInvokesOnce` | Plugins/GMP/Source/GMP/Private/GMPHub.cpp:295-333 | an admitted request answered once invokes its callback once, with the responder's id, if the response passes its check and not at all otherwise; the pending table returns to what it was either way; this holds for any moved-from id on the dispatched body; without the dynamic call check the callback always runs |
| `Class2Name.EnumPrefix` | Plugins/GMP/Source/GMP/GMP/GMPClass2Name.h:479-515 | sizes 2, 4 and 8 give `TEnum2Bytes`, `TEnum4Bytes` and `TEnum8Bytes`; any other size gives `TEnumAsByte`; every prefix is 11 characters |
| `Class2Name.EnumName` | Plugins/GMP/Source/GMP/GMP/GMPClass2Name.h:517-524 | the name is the prefix for the byte size (one byte for an `enum class`), then `<`, then `CppType` (or the enum's own name when `CppType` is empty), then `>` |
| `Class2Name.EnumClassNamedAsByte` | Plugins/GMP/Source/GMP/GMP/GMPClass2Name.h:519-523 | an `enum class` is named as one byte wide whatever its size, and `TEnumAsByte` names it the same way |
| `Class2Name.ScopedEnumNeedsUInt8` | Plugins/GMP/Source/GMP/GMP/GMPClass2Name.h:531-537 | a scoped enum is named iff its underlying type is `uint8`; an unscoped enum is always named, with the prefix of its byte size |
| `Class2Name.EnumWidthShowsInName` | Plugins/GMP/Source/GMP/GMP/GMPClass2Name.h:479-495 | an unscoped enum's width shows in its name: sizes 1, 2, 4 and 8 give four different names |
| `Class2Name.WrapIsBalanced` | Plugins/GMP/Source/GMP/GMP/GMPClass2Name.h:592-595 | a one-element container name built around a balanced element name has balanced angle brackets |
| `Class2Name.NameOfDefinedIffNameable` | Plugins/GMP/Source/GMP/GMP/GMPClass2Name.h:629-681 | a type has a name iff no container directly holds a `TArray`, `TSet` or `TMap` and every scoped enum is declared over `uint8` |
| `Class2Name.NonExactIsCollapsedExact` | Plugins/GMP/Source/GMP/GMP/GMPClass2Name.h:387-398 | naming in non-exact mode is exact naming with every object class replaced by `UObject` |
| `Class2Name.ObjectFreeNamesAgree` | Plugins/GMP/Source/GMP/GMP/GMPClass2Name.h:619-626 | a type that mentions no object class has the same name in both modes |
| `Class2Name.NamesAreBalanced` | Plugins/GMP/Source/GMP/GMP/GMPClass2Name.h:973-992 | with plain leaf names, every generated name has balanced angle brackets |
| `JsonValues.Len` | Plugins/GMP/Source/GMP/GMP/GMPJsonSerializer.h:30 | the length is always an int32 value |
| `JsonValues.LenIsMagnitude` | Plugins/GMP/Source/GMP/GMP/GMPJsonSerializer.h:30 | below 2^31 characters the length is the magnitude of the stored length |
| `JsonValues.WidthTagKeepsLength` | Plugins/GMP/Source/GMP/GMP/GMPJsonSerializer.h:30-31 | flipping the sign of the stored length flips the width and keeps the length |
| `JsonValues.DefaultViewIsEmpty` | Plugins/GMP/Source/GMP/GMP/GMPJsonSerializer.h:73-74 | a default view is invalid, wide and of length 0 |
| `JsonValues.LongViewLengthWraps` | Plugins/GMP/Source/GMP/GMP/GMPJsonSerializer.h:30 | a stored length of 2^31 reads back as -2^31 |
| `JsonValues.Append` | Plugins/GMP/Source/GMP/GMP/GMPJsonSerializer.h:354-365 | a pair whose Last is at most 0 is replaced by the other; otherwise the result covers both spans, taking each bound from one of them |
| `JsonValues.AppendIsLeastCover` | Plugins/GMP/Source/GMP/GMP/GMPJsonSerializer.h:360-364 | any span covering both pairs covers their append |
| `JsonValues.AppendKeepsTruthy` | Plugins/GMP/Source/GMP/GMP/GMPJsonSerializer.h:349-365 | appending truthy pairs gives a truthy pair, and the default pair is a left identity |
| `JsonValues.AppendIdempotent` | Plugins/GMP/Source/GMP/GMP/GMPJsonSerializer.h:360-364 | a pair with Last above 0 appended to itself is unchanged |
| `JsonValues.AddKeyValue` | Plugins/GMP/Source/GMP/GMP/GMPJsonSerializer.h:429-439 | a falsy key span is returned before any value is written; a falsy value span is returned as it is; two truthy spans give the appended span, which covers the value span, and also the key span when the key span ends past index 0 |
| `JsonValues.AddKeyValueSpansPair` | Plugins/GMP/Source/GMP/GMP/GMPJsonSerializer.h:429-439 | when both writes succeed and the key span ends past index 0, the reported span covers both spans, and any span covering both covers it |
| `JsonValues.AddKeyValueAnsi` | Plugins/GMP/Source/GMP/GMP/GMPJsonSerializer.h:441-449 | succeeds iff both the key write and the value write succeed |
| `JsonValues.AnsiOverloadAgrees` | Plugins/GMP/Source/GMP/GMP/GMPJsonSerializer.h:429-449 | both overloads leave the builder in the same state, and the ANSI result is the truth of the wide one |

## Left out

- The signal store: connections, firing order, `once` options, listener liveness and `GetKeysBySrc` are defined in files that are not part of this model. They are abstract functions of `StoreOps`. Firing answers the store as it leaves it (once-only listeners dropped, stale ones pruned) and the keys it reached in the state at the start of the dispatch. The hub stores that state before the handlers' operations run. In the engine the handlers run inside `FireWithSigSource`, so their connections and disconnections interleave with the firing itself; the model applies them after it.
- Where callback marks are added: that happens in the hub's header, which is not part of this model. The marks are part of the state and only the visible removal is modelled.
- Case-insensitive `FName` comparison: an `FName` compares case-insensitively, but the model compares `HubTypes.Name` values as sequences of characters, so the `text` of `Named` stands for the name's comparison key (its case-folded text), not its display spelling. Case folding itself is not modelled.
- The `FMessageHub` constructor, destructor and `IsValidHub`, the hub registry's critical section, and the atomics of the allocator. This is concurrency, so calls are modelled one at a time.
- The `FMessageBody` constructors are not visible. A notification takes its id from the allocator; a request's body takes the id that `OnRsp.GetId()` reads after the move, given as the `movedId` parameter.
- `GMP_CNOTE_ONCE`, logging, warnings, `ensure` reports, console variables, `TraceMessageKey`, `GetTimeSeconds`, `MessageToString`, and the string building in `GetListeners`/`GetCallInfos`. These are diagnostics only. The recursion guard's count and its truth value are modelled; the one-time note is not.
- The message-holder replay in `ListenMessageImpl` and `BindSignalConnection` on listen. These are reflection-driven property iteration.
- The `FTagTypeStack` thread singleton, the tag-update delegate and `DelayInits`. They are editor plumbing with no effect on the verdicts.
- `ListenMessageImpl` for `FSigCollection` listeners. It is modelled by the same `Listen` operation, since the two overloads differ only in logging and the listener kind.
- `MessageHub.Dispatch`: the history entry's text is `FMessageBody::ToString`, a `Config` parameter. Its body is not part of this model, and each recorded entry is taken to hold that text alone, as if `ToString` overwrites `CallInfo`.
- `MessageHub.RecordKeepsLastCalls` (and `MessageHub.Record`): the hub records with the corrected ring `CallHistory.AppendCallInfo`. The code as written also keeps a recycled slot's earlier `Records` (`GMPHub.cpp:148-156`). `CallHistory.AsWrittenDiffersOnlyInRecycledRecords` shows that this is the only difference between the two.
- `MessageHub.WithSignal`: `GetSig<true>` is defined in the hub's header, which is not part of this model. Notify, Request and Listen are taken to look up their signal through it, creating the signal with `MakeSignals` when the key has none.
- `Class2Name`: UE reflection lookups are inputs, not computed. These are class, struct and enum names, native-class naming, soft and weak pointer wrappers, interfaces and delegates. The order in which a type's category is chosen is also not modelled.
- `Class2Name`: `float` has its fixed name only when `GMP_FORCE_DOUBLE_PROPERTY` is off, and that is the configuration modelled. The name of `UObject`'s own class is taken to be `Object`.
- `JsonValues`: the JSON serializer itself, the builder bodies, file and HTTP I/O, and the `StringView` constructors (declared only).
- `JsonValues.LenIsMagnitude`: states `Len` only below 2^31 characters. Above that the `int32` cast truncates, as `JsonValues.LongViewLengthWraps` shows.
- `SequenceIds.NextSequenceId`: states freshness only until the signed 64-bit counter wraps. `SequenceIds.WrappedCounterYieldsZero` shows what happens after the wrap.

## Findings

| source | as written | input that shows it | evidently intended | confidence | as-written member | corrected member |
|---|---|---|---|---|---|---|
| Plugins/GMP/Source/GMP/Private/GMPHub.cpp:148-156 | when the history ring is full, the recycled slot's `Records` are appended to, so it keeps the listener keys of the evicted call | 256 calls that each reached key 7, then one call that reached key 9: the newest entry lists keys 7 and 9 | the recycled slot holds only the new call's keys | high, not executed | `CallHistory.RecycledSlotKeepsEvictedRecords` | `CallHistory.AppendCallInfoKeepsLastCalls` |
| Plugins/GMP/Source/GMP/Private/GMPHub.cpp:1056-1059 | `IsSingleshotCompatible` reconciles the response list but reports `OutTagDefinition.ParameterTypes` through `OldTypes` | sender parameters `(A)` and responses `(Base)` recorded; checking a response `(Base)` reports `(A)` | report the response list, `OutTagDefinition.ResponseTypes` | medium, not executed | `SignatureScenarios.SingleshotReportsParameterList` | `Signatures.IsSingleshotCompatible` |
