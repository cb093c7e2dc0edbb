# Twitch pinger configuration stores, modelled in Dafny

This project models the in-memory core of the twitch pinger configuration API.
That core has two generations of configuration store:

- **`ConfigService`** (`services.dfy`) is the current store. It holds an ordered
  list of named sections. Each section holds an ordered list of channels, and a
  channel is an id, a name and an output folder. The class
  `Services.ConfigService` keeps the list in a `seq` field, and every operation
  updates it in place. Operations that hand back a section record in the
  original return its index in the list instead.
- **`PopSingle`** (`tools.dfy`) is the list helper used by move-channel. It
  removes the one element that satisfies a condition. `tools.dfy` also holds
  the LINQ and `List` operations the service relies on, written as functions
  over sequences with a predicate: `Any`/`Count`, the first match,
  `SingleOrDefault`, `RemoveAll` and `RemoveAt`.
- **`TwitchPingerConfigRepository`** (`repository.dfy`) is the older store. It is
  a map from section name to a map from username to numeric id. The class
  `Repository.TwitchPingerConfigRepository` keeps that map in a field.

Both classes count every request to persist the state in a ghost field,
`writeRequests`. Each contract therefore says whether an operation writes the
file. An exception becomes an `Err` carrying one constructor of
`Outcomes.Error` per message shape. `scenarios.dfy` proves call sequences from
the method contracts alone: repeated creation, repeated updates, a move
followed by lookups, and operations followed by their inverse.

The model follows the code, including where its behaviour looks unintended:

- `RenameSection` renames the first matching section, requests a write, and
  then always reports "not found". The loop's `break` falls through to the
  final throw.
- `RenameSection`, `UpdateChannel` and the destination of `MoveChannel` do not
  check for name conflicts. Every other operation keeps section names unique,
  and channel names unique within each section, when they were. These three
  can break that: `Scenarios.RenameSectionCanDuplicate`,
  `Scenarios.UpdateChannelCanDuplicate` and `Scenarios.MoveChannelCanDuplicate`
  each start from unique names and end with a duplicate.
- Every `SingleOrDefault` lookup fails on a name held twice, and so does
  get-or-create.
- `MoveChannel` removes the channel from its section before it looks up the
  destination. When that lookup fails, the channel is in neither section.
- The repository's `Move` creates the destination section before its checks,
  so the section stays created when the move fails.

## Model

| member | source | states |
|---|---|---|
| Tools.PopSingle | src/Tools/CollectionExtensions.cs:5-28 | With no match: "no items" error, list unchanged. With several matches: "multiple items" error, list unchanged. With exactly one match: returns that element, and the rest is the list with its index removed. On success the element satisfies the condition, the length drops by one and no remaining element satisfies it. The loop keeps exactly as many collected indices as matches past the cursor: all distinct, descending and matching. |
| Tools.RemoveSingleMatch | src/Tools/CollectionExtensions.cs:23-26 | With exactly one match at position k, k is the first match, and removing it leaves no element that matches. |
| Tools.RemoveAt | src/Tools/CollectionExtensions.cs:25 | `List.RemoveAt`: one element shorter; elements before i keep their position, and those after it move down by one. |
| Tools.Count | src/Services/ConfigService.cs:67-68 | At most the length; zero exactly when no element matches (`Any`). |
| Tools.CountConcat | src/Services/ConfigService.cs:49-63 | The match count of a concatenation is the sum of the parts' counts. |
| Tools.SingleMatch | src/Services/ConfigService.cs:49 | When only one element matches, any two matching positions are equal. |
| Tools.FirstIndex | src/Services/ConfigService.cs:94-100 | The first matching position: it matches, nothing before it matches, and it is absent exactly when nothing matches. |
| Tools.FirstIndexPrefix | src/Services/ConfigService.cs:63 | Appending elements that add no match leaves the first match where it was. |
| Tools.SingleIndex | src/Services/ConfigService.cs:49 | `SingleOrDefault`: no value exactly when nothing matches, and an error exactly when two or more match. Otherwise it gives the unique matching position, which is also the first one. |
| Tools.RemoveAll | src/Services/ConfigService.cs:112 | `List.RemoveAll`: shorter by the number of matches. Every element kept is from the list and does not match, and every non-matching element is kept. |
| Tools.RemoveAllConcat | src/Services/ConfigService.cs:112 | RemoveAll filters each part of a concatenation separately, so it keeps the relative order of what remains. |
| Tools.RemoveAllKeepsDistinct | src/Services/ConfigService.cs:112 | What `RemoveAll` keeps still has pairwise distinct keys when the list had. |
| Tools.DistinctPrepend | src/Services/ConfigService.cs:112 | Putting an element with a key no other element has in front of a list with distinct keys keeps the keys distinct. |
| Tools.AppendedIsOnlyMatch | src/Services/ConfigService.cs:183 | An element that matches, appended after none that do, is the only match and the first one. |
| Tools.RemoveAllNone | src/Services/ConfigService.cs:112-116 | With nothing to remove, RemoveAll leaves the list as it was. |
| Services.EntityToDto | src/Services/ConfigService.cs:44-45 | The channel's transfer form loses nothing: converting it back gives the channel. |
| Services.DtoToEntity | src/Services/ConfigService.cs:129 | The channel stored for a request body is found under the body's name, so the "already exists" check on the body's name guards what is stored. |
| Services.DtoToEntityToDto | src/Services/ConfigService.cs:129 | A channel built from a request body converts back to that body, so CreateChannel returns exactly what it stored. |
| Services.SectionToDto | src/Services/ConfigService.cs:41-42 | The section's transfer form keeps its name and converts its channels one by one, in order. |
| Services.GetChannelSection | src/Services/ConfigService.cs:47-55 | A name held by two or more sections is an error. An absent name is an error only when throwing is requested, and otherwise gives no section. A unique name gives its position. |
| Services.SectionContainsChannel | src/Services/ConfigService.cs:67-68 | True exactly when at least one channel of the section has that name. |
| Services.Patched | src/Services/ConfigService.cs:152-153 | Each field falls back to the channel's own value when the patch leaves it out (`??`). The result equals the channel exactly when every field the patch carries already equals the channel's; this is the "would not be updated" condition. A patch without a name keeps the name. |
| Services.PatchedIdempotent | src/Services/ConfigService.cs:152-156 | Applying a patch twice is the same as applying it once, so repeating an update hits the "would not be updated" refusal. |
| Services.UniqueNamesLookup | src/Services/ConfigService.cs:49 | When section names are unique, no name is held twice, so no lookup fails on a duplicate. |
| Services.ConfigService.GetOrCreateChannelSection | src/Services/ConfigService.cs:57-65 | A duplicated name is an error and nothing changes. An existing name gives its section, unchanged. A new name appends one empty section at the end and gives its position. On success that name is now held exactly once. |
| Services.ConfigService.GetAllSections | src/Services/ConfigService.cs:70-78 | Every section's transfer form, in list order. |
| Services.ConfigService.GetSection | src/Services/ConfigService.cs:80-84 | An absent name is "not found" and a duplicated name is an error. Otherwise it returns the transfer form of the one section of that name. |
| Services.ConfigService.CreateSection | src/Services/ConfigService.cs:86-90 | An existing name returns that section and changes nothing. A new name appends exactly one empty section with that name at the end and returns it. A duplicated name is an error. It never requests a write, and it keeps section names, and channel names within each section, unique when they were. |
| Services.ConfigService.RenameSection | src/Services/ConfigService.cs:92-108 | Always reports "section not found". When a section has the old name, the first such section is replaced at the same index by one with the new name and the same channels, nothing else changes, and one write is requested. Otherwise nothing changes and nothing is written. The new name is not checked. Channel names stay unique within each section when they were. |
| Services.ConfigService.DeleteSection | src/Services/ConfigService.cs:110-119 | Removes every section of that name and keeps the others in order. If none matched, it reports "not found", changes nothing and writes nothing. Otherwise it requests one write. Section names, and channel names within each section, stay unique when they were. |
| Services.ConfigService.CreateChannel | src/Services/ConfigService.cs:121-132 | A duplicated section name is an error. If the section exists and already has a channel of that name, it reports "already exists" and nothing changes. Otherwise the channel is appended to its section (which is created when missing), the body is returned and one write is requested. When section names were unique, and channel names within every section, they still are. |
| Services.ConfigService.GetChannel | src/Services/ConfigService.cs:134-139 | The section must exist once. In that section, a missing channel gives no channel and a duplicated one is an error. Otherwise it returns the transfer form of the one channel of that name. |
| Services.ConfigService.UpdateChannel | src/Services/ConfigService.cs:141-164 | The section must exist once, and a missing channel is "not found in". Otherwise the first channel of that name is patched in place: each absent patch field keeps the old value. A patch that changes nothing is refused and nothing changes. Otherwise only that channel changes, its transfer form is returned and one write is requested. The new name is not checked. Section names stay unique when they were. |
| Services.ConfigService.DeleteChannel | src/Services/ConfigService.cs:166-175 | The section must exist once. Every channel of that name is removed from it, and every other section is unchanged. If none matched, it reports "not found in" and nothing changes. Otherwise one write is requested. Section names, and channel names within each section, stay unique when they were. |
| Services.ConfigService.MoveChannel | src/Services/ConfigService.cs:177-186 | `from` must exist once and hold exactly one channel of that name. Otherwise it fails with the state unchanged. That channel is then removed from `from`. If `to` is duplicated, it fails with the channel removed and appended nowhere. Otherwise the channel is appended at the end of `to` (created when missing) and one write is requested. There is no conflict check at `to`. When `from == to`, the channel goes to the end of the same section. Section names stay unique when they were. |
| Services.AddToSection | src/Services/ConfigService.cs:182-183 | After get-or-create and append: the name is held by exactly one section, whose channels are its former channels (none if it was new) plus the new channel. Every section keeps its name, and every section of another name is unchanged. |
| Services.AddToSectionKeepsOtherSections | src/Services/ConfigService.cs:182-183 | Appending to one section leaves the lookup of every other section name, and the section it finds, as they were. |
| Services.CreateChannelKeepsNamesUnique | src/Services/ConfigService.cs:121-132 | A successful CreateChannel (the first section of that name, if any, lacks the channel) keeps section names unique and channel names unique within each section, when they were. |
| Services.AddToSectionKeepsSectionNamesUnique | src/Services/ConfigService.cs:57-66 | Get-or-create followed by appending a channel keeps section names unique: the section is either found or added under a name no section holds. |
| Services.RemoveAllKeepsNamesUnique | src/Services/ConfigService.cs:112 | Removing every section of a name keeps section names unique and channel names unique within each section, when they were. |
| Services.ReplaceChannelsKeepsSectionNamesUnique | src/Services/ConfigService.cs:158 | Replacing the channels of one section keeps its name, so section names stay unique. |
| Services.RemoveChannelsKeepsChannelNamesUnique | src/Services/ConfigService.cs:169 | Removing every channel of a name from one section keeps channel names unique within each section. |
| Services.AddToSectionKeepsChannelNamesUnique | src/Services/ConfigService.cs:121-132 | Appending a channel whose name its section does not hold yet keeps channel names unique in every section. This is the check CreateChannel makes and MoveChannel omits. |
| Services.AppendAfterGetOrCreate | src/Services/ConfigService.cs:123-129 | Get-or-create followed by appending to the returned section yields AddToSection of the original list. |
| Services.AppendChannel | src/Services/ConfigService.cs:129 | Appending a channel to the one section of a name keeps it the one section of that name, now holding the channel. |
| Services.CountSameNames | src/Services/ConfigService.cs:49 | Two lists whose sections carry the same names position by position have the same lookup results. |
| Repository.Hidden | Repository/TwitchPingerConfigRepository.cs:40 | `StartsWith('#')`: true exactly when the username has `#` as a prefix. |
| Repository.Visible | Repository/TwitchPingerConfigRepository.cs:38-44 | The entries the full listing shows: only keys of the section, none starting with `#`, each with its own id, and every key not starting with `#`. |
| Repository.EntryOrEmpty | Repository/TwitchPingerConfigRepository.cs:62 | `GetOrAdd(section, new())`: on a present section the file is left as it was; on an absent one the entry is empty and only that key is added. `Move` makes the same call for its destination. |
| Repository.VisibleItems | Repository/TwitchPingerConfigRepository.cs:37-44 | Lists each entry of a section whose username does not start with `#` exactly once, with its id, and nothing else. |
| Repository.TwitchPingerConfigRepository.GetAll | Repository/TwitchPingerConfigRepository.cs:32-47 | Lists every section exactly once. Each section carries exactly its entries without the `#`-prefixed ones. |
| Repository.TwitchPingerConfigRepository.GetUsers | Repository/TwitchPingerConfigRepository.cs:49-58 | Nothing for an unknown section. Otherwise every entry of the section exactly once, `#`-prefixed ones included. |
| Repository.TwitchPingerConfigRepository.Add | Repository/TwitchPingerConfigRepository.cs:60-69 | A user already in the section is an error: its id is kept and nothing is written. Otherwise the section (created when absent) maps the user to the id, every other entry and section is unchanged, and one write is requested. |
| Repository.TwitchPingerConfigRepository.Rename | Repository/TwitchPingerConfigRepository.cs:71-94 | Errors in the source's order: missing section, new name already present (even when equal to the old name), old name absent; each leaves everything unchanged. Otherwise the old key is gone, the new key holds the old id, nothing else changes and one write is requested. |
| Repository.TwitchPingerConfigRepository.Move | Repository/TwitchPingerConfigRepository.cs:96-120 | A missing source section is an error with nothing created. Otherwise the destination is created when absent, even when the move then fails. The move fails when the user is already at the destination or absent from the source, and always fails within one section. On success the user is absent from the source and present at the destination with the same id, and one write is requested. |
| Repository.TwitchPingerConfigRepository.DeleteSection | Repository/TwitchPingerConfigRepository.cs:122-130 | An absent section is an error and nothing changes. Otherwise exactly that key is removed and one write is requested. |
| Repository.TwitchPingerConfigRepository.DeleteUsername | Repository/TwitchPingerConfigRepository.cs:132-145 | A missing section or user is an error and nothing changes. Otherwise only that user is removed from that section, and one write is requested. |
| Scenarios.CreateSectionTwice | src/Services/ConfigService.cs:86-90 | With unique section names, creating a section twice succeeds twice with the same answer, leaves exactly one section of that name, keeps names unique and writes nothing. |
| Scenarios.CreateChannelTwice | src/Services/ConfigService.cs:121-132 | After a successful create, a second channel with the same name in the same section is refused, and only the first call wrote. Afterwards the section name is held once, and that section ends with the first channel, the only one of that name. |
| Scenarios.UpdateChannelTwice | src/Services/ConfigService.cs:141-164 | When a patch does not rename, repeating a successful update is refused as one that would change nothing. |
| Scenarios.MovedChannelIsFound | src/Services/ConfigService.cs:177-186 | After a successful move between two different sections whose destination lacked that channel name, the source still exists once and no longer holds the channel, and the destination exists once and holds exactly one channel of that name. That channel is the one that was moved, with its id and folder. |
| Scenarios.MoveThenGet | src/Services/ConfigService.cs:134-139 | Given the same conditions, after a successful move, looking up the channel finds nothing in the source, and in the destination finds the transfer form of the channel that was in the source, with the same id and folder. |
| Scenarios.RenameSectionCanDuplicate | src/Services/ConfigService.cs:92-108 | Renaming `a` to `b` next to an existing `b` turns unique section names into a duplicate. |
| Scenarios.UpdateChannelCanDuplicate | src/Services/ConfigService.cs:141-164 | Renaming channel `x` to `y` next to an existing `y` turns unique channel names into a duplicate. |
| Scenarios.MoveChannelCanDuplicate | src/Services/ConfigService.cs:177-186 | Moving `x` into a section that already holds an `x` turns unique channel names into a duplicate, while section names stay unique. |
| Scenarios.RenameAndBack | Repository/TwitchPingerConfigRepository.cs:71-94 | Renaming a user to a free name and back restores the store, with two writes. |
| Scenarios.MoveAndBack | Repository/TwitchPingerConfigRepository.cs:96-120 | Moving a user between two existing sections and back restores the store, with two writes. |
| Scenarios.AddAndDelete | Repository/TwitchPingerConfigRepository.cs:132-145 | Adding a new user to an existing section and deleting it restores the store, with two writes. |

## Left out

- File I/O and JSON are not modelled. Both constructors take the loaded state as a parameter instead of reading and deserialising the file. The startup error for a blank file location is left out.
- `WriteChangesToFile` is a ghost counter of write requests. Serialisation and write failures are not modelled, and neither is the fire-and-forget (`async void`) write of the repository.
- Concurrency is not modelled: the semaphore, the concurrent dictionaries, and `async`/`Task`. Both stores are sequential state.
- The HTTP layer (controllers, middlewares, result helpers) is not part of this model.
- `PopSingle` works on a list value and returns the remaining list. The caller writes that list back, instead of the list being mutated through an `IList` reference.
- References to section records become indices into the section list. No two records in the source share a channel list, so aliasing is not lost.
- Repository.TwitchPingerConfigRepository.Rename: the final "already contains" failure of `TryAdd` is not modelled. The new name was checked absent just before, so that branch cannot be reached in sequential code.
- Repository.TwitchPingerConfigRepository.Move: the final "already contains" failure of `TryAdd` is not modelled, for the same reason.
- Dictionary enumeration order is unspecified. The listings pick the next key nondeterministically, and their contracts state the set listed, not the order.
- The message of the exception `SingleOrDefault` throws is one constructor, `MoreThanOneMatch`, without its text.
