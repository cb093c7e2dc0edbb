/**
 * The configuration service: an ordered list of named sections, each an
 * ordered list of channels (id, name, output folder), changed in place.
 *
 * Sections are found by position: where the service hands back a reference
 * to a section record, the model hands back its index in `sections`. No two
 * section records ever share a channel list, so the section values in the
 * sequence are the whole state. Every request to write the file is counted
 * in the ghost field `writeRequests`.
 */
module Services {
  import opened Outcomes
  import opened Tools

  datatype ChannelEntity = ChannelEntity(id: int, name: string, folder: string)
  datatype ChannelSectionEntity = ChannelSectionEntity(name: string, channels: seq<ChannelEntity>)

  datatype ChannelDto = ChannelDto(id: int, name: string, outputFolder: string)
  datatype ChannelSectionDto = ChannelSectionDto(name: string, channels: seq<ChannelDto>)
  /** A partial update: absent fields keep the channel's current value. */
  datatype PatchChannelDto = PatchChannelDto(id: Option<int>, name: Option<string>, outputFolder: Option<string>)
  datatype MoveChannelDto = MoveChannelDto(from: string, to: string)

  /** The lookup condition `it => it.Name == name` on sections. */
  function SectionNamed(name: string): ChannelSectionEntity -> bool {
    (s: ChannelSectionEntity) => s.name == name
  }

  /** The lookup condition `it => it.Name == name` on channels. */
  function ChannelNamed(name: string): ChannelEntity -> bool {
    (c: ChannelEntity) => c.name == name
  }

  /**
   * The stored form of a request body: it is found under the body's name,
   * so the conflict check on the body's name is a check on what is stored.
   */
  function DtoToEntity(d: ChannelDto): (c: ChannelEntity)
    ensures ChannelNamed(d.name)(c)
  {
    ChannelEntity(d.id, d.name, d.outputFolder)
  }

  /** A channel's transfer form; it loses nothing. */
  function EntityToDto(c: ChannelEntity): (d: ChannelDto)
    ensures DtoToEntity(d) == c
  {
    ChannelDto(c.id, c.name, c.folder)
  }

  lemma DtoToEntityToDto(d: ChannelDto)
    ensures EntityToDto(DtoToEntity(d)) == d
  {
  }

  /** A section's transfer form: its name and its channels, in order. */
  function SectionToDto(s: ChannelSectionEntity): (d: ChannelSectionDto)
    ensures d.name == s.name && |d.channels| == |s.channels|
    ensures forall i :: 0 <= i < |s.channels| ==> DtoToEntity(d.channels[i]) == s.channels[i]
  {
    ChannelSectionDto(s.name, seq(|s.channels|, i requires 0 <= i < |s.channels| => EntityToDto(s.channels[i])))
  }

  /**
   * The section lookup by name: a name held by two or more sections is an
   * error; an absent name is an error only when `throwOnNotFound`.
   */
  function GetChannelSection(sections: seq<ChannelSectionEntity>, name: string, throwOnNotFound: bool): (r: Result<Option<nat>>)
    ensures Count(sections, SectionNamed(name)) > 1 ==> r == Err(MoreThanOneMatch)
    ensures Count(sections, SectionNamed(name)) == 0 ==>
      r == if throwOnNotFound then Err(NameNotFound(name)) else Ok(None)
    ensures Count(sections, SectionNamed(name)) == 1 ==>
      r == Ok(FirstIndex(sections, SectionNamed(name))) && r.value.Some? &&
      r.value.value < |sections| && sections[r.value.value].name == name
  {
    match SingleIndex(sections, SectionNamed(name))
    case Err(e) => Err(e)
    case Ok(None) => if throwOnNotFound then Err(NameNotFound(name)) else Ok(None)
    case Ok(Some(i)) => Ok(Some(i))
  }

  /** Whether a channel of that name is in the section. */
  function SectionContainsChannel(entity: ChannelSectionEntity, channelName: string): (b: bool)
    ensures b <==> Count(entity.channels, ChannelNamed(channelName)) > 0
  {
    exists c :: c in entity.channels && c.name == channelName
  }

  /** The channel with each field the patch carries replaced. */
  function Patched(c: ChannelEntity, patch: PatchChannelDto): (r: ChannelEntity)
    ensures r == c <==>
      && (patch.id.Some? ==> patch.id.value == c.id)
      && (patch.name.Some? ==> patch.name.value == c.name)
      && (patch.outputFolder.Some? ==> patch.outputFolder.value == c.folder)
    ensures patch.name.None? ==> r.name == c.name
  {
    ChannelEntity(
      if patch.id.Some? then patch.id.value else c.id,
      if patch.name.Some? then patch.name.value else c.name,
      if patch.outputFolder.Some? then patch.outputFolder.value else c.folder)
  }

  /** Applying a patch twice is applying it once: a repeated update is refused. */
  lemma PatchedIdempotent(c: ChannelEntity, patch: PatchChannelDto)
    ensures Patched(Patched(c, patch), patch) == Patched(c, patch)
  {
  }

  function SectionName(s: ChannelSectionEntity): string { s.name }
  function ChannelName(c: ChannelEntity): string { c.name }

  ghost predicate UniqueSectionNames(sections: seq<ChannelSectionEntity>) {
    forall i, j :: 0 <= i < j < |sections| ==> sections[i].name != sections[j].name
  }

  ghost predicate UniqueChannelNames(sections: seq<ChannelSectionEntity>) {
    forall k, i, j :: 0 <= k < |sections| && 0 <= i < j < |sections[k].channels| ==>
      sections[k].channels[i].name != sections[k].channels[j].name
  }

  /** With unique section names a name is held at most once, so no lookup meets a duplicate. */
  lemma {:induction false} UniqueNamesLookup(sections: seq<ChannelSectionEntity>, name: string)
    requires UniqueSectionNames(sections)
    ensures Count(sections, SectionNamed(name)) <= 1
  {
    if Count(sections, SectionNamed(name)) > 1 {
      TwoMatches(sections, SectionNamed(name));
    }
  }

  class ConfigService {
    var sections: seq<ChannelSectionEntity>
    ghost var writeRequests: nat

    /** The service over the sections read from the file. */
    constructor (loaded: seq<ChannelSectionEntity>)
      ensures sections == loaded && writeRequests == 0
    {
      sections := loaded;
      writeRequests := 0;
    }

    /** Requests that the whole state be written to the file. */
    ghost method WriteChangesToFile()
      modifies this`writeRequests
      ensures writeRequests == old(writeRequests) + 1
    {
      writeRequests := writeRequests + 1;
    }

    /** The section of that name, appended empty if there is none; never writes. */
    method GetOrCreateChannelSection(name: string) returns (r: Result<nat>)
      modifies this`sections
      ensures Count(old(sections), SectionNamed(name)) > 1 ==>
        r == Err(MoreThanOneMatch) && sections == old(sections)
      ensures Count(old(sections), SectionNamed(name)) == 1 ==>
        r == Ok(FirstIndex(old(sections), SectionNamed(name)).value) && sections == old(sections)
      ensures Count(old(sections), SectionNamed(name)) == 0 ==>
        r == Ok(|old(sections)|) && sections == old(sections) + [ChannelSectionEntity(name, [])]
      ensures r.Ok? ==>
        r.value < |sections| && sections[r.value].name == name && Count(sections, SectionNamed(name)) == 1
    {
      var found := GetChannelSection(sections, name, false);
      if found.Err? {
        r := Err(found.error);
        return;
      }
      if found.value.Some? {
        r := Ok(found.value.value);
        return;
      }
      CountConcat(sections, [ChannelSectionEntity(name, [])], SectionNamed(name));
      sections := sections + [ChannelSectionEntity(name, [])];
      r := Ok(|sections| - 1);
    }

    /** Every section, in order. */
    method GetAllSections() returns (r: seq<ChannelSectionDto>)
      ensures |r| == |sections|
      ensures forall i :: 0 <= i < |r| ==> r[i] == SectionToDto(sections[i])
    {
      r := [];
      for i := 0 to |sections|
        invariant |r| == i
        invariant forall j :: 0 <= j < i ==> r[j] == SectionToDto(sections[j])
      {
        r := r + [SectionToDto(sections[i])];
      }
    }

    /** The one section of that name; absent and duplicated names are errors. */
    method GetSection(sectionName: string) returns (r: Result<ChannelSectionDto>)
      ensures Count(sections, SectionNamed(sectionName)) == 0 ==> r == Err(NameNotFound(sectionName))
      ensures Count(sections, SectionNamed(sectionName)) > 1 ==> r == Err(MoreThanOneMatch)
      ensures Count(sections, SectionNamed(sectionName)) == 1 ==>
        r == Ok(SectionToDto(sections[FirstIndex(sections, SectionNamed(sectionName)).value]))
    {
      var found := GetChannelSection(sections, sectionName, true);
      if found.Err? {
        r := Err(found.error);
      } else {
        r := Ok(SectionToDto(sections[found.value.value]));
      }
    }

    /**
     * Idempotent create: an existing section is returned untouched, a new
     * name gets an empty section at the end. Never writes the file.
     */
    method CreateSection(sectionName: string) returns (r: Result<ChannelSectionDto>)
      modifies this`sections
      ensures Count(old(sections), SectionNamed(sectionName)) > 1 ==>
        r == Err(MoreThanOneMatch) && sections == old(sections)
      ensures Count(old(sections), SectionNamed(sectionName)) == 1 ==>
        sections == old(sections) &&
        r == Ok(SectionToDto(sections[FirstIndex(sections, SectionNamed(sectionName)).value]))
      ensures Count(old(sections), SectionNamed(sectionName)) == 0 ==>
        r == Ok(ChannelSectionDto(sectionName, [])) && sections == old(sections) + [ChannelSectionEntity(sectionName, [])]
      ensures r.Ok? ==> Count(sections, SectionNamed(sectionName)) == 1
      ensures UniqueSectionNames(old(sections)) ==> UniqueSectionNames(sections)
      ensures UniqueChannelNames(old(sections)) ==> UniqueChannelNames(sections)
      ensures writeRequests == old(writeRequests)
    {
      var section := GetOrCreateChannelSection(sectionName);
      if section.Err? {
        r := Err(section.error);
      } else {
        r := Ok(SectionToDto(sections[section.value]));
      }
    }

    /**
     * Renames the first section called `oldName`, in place and keeping its
     * channels, and requests a write; then reports "not found" in every case,
     * since the loop's `break` falls through to the final throw. The new name
     * is not checked against the other sections.
     */
    method RenameSection(oldName: string, newName: string) returns (r: Result<()>)
      modifies this
      ensures r == Err(SectionWithNameNotFound(oldName))
      ensures FirstIndex(old(sections), SectionNamed(oldName)).None? ==>
        sections == old(sections) && writeRequests == old(writeRequests)
      ensures FirstIndex(old(sections), SectionNamed(oldName)).Some? ==>
        var i := FirstIndex(old(sections), SectionNamed(oldName)).value;
        sections == old(sections)[i := ChannelSectionEntity(newName, old(sections)[i].channels)] &&
        writeRequests == old(writeRequests) + 1
      ensures UniqueChannelNames(old(sections)) ==> UniqueChannelNames(sections)
    {
      var i := 0;
      while i < |sections|
        invariant 0 <= i <= |sections|
        invariant sections == old(sections) && writeRequests == old(writeRequests)
        invariant forall j :: 0 <= j < i ==> sections[j].name != oldName
      {
        var section := sections[i];
        if section.name != oldName {
          i := i + 1;
          continue;
        }
        sections := sections[i := section.(name := newName)];
        WriteChangesToFile();
        break;
      }
      r := Err(SectionWithNameNotFound(oldName));
    }

    /** Removes every section of that name, keeping the others in order. */
    method DeleteSection(sectionName: string) returns (r: Result<()>)
      modifies this
      ensures sections == RemoveAll(old(sections), SectionNamed(sectionName))
      ensures Count(old(sections), SectionNamed(sectionName)) == 0 ==>
        r == Err(SectionWithNameNotFound(sectionName)) && sections == old(sections) &&
        writeRequests == old(writeRequests)
      ensures Count(old(sections), SectionNamed(sectionName)) > 0 ==>
        r == Ok(()) && writeRequests == old(writeRequests) + 1
      ensures UniqueSectionNames(old(sections)) ==> UniqueSectionNames(sections)
      ensures UniqueChannelNames(old(sections)) ==> UniqueChannelNames(sections)
    {
      var before := |sections|;
      RemoveAllKeepsNamesUnique(sections, sectionName);
      sections := RemoveAll(sections, SectionNamed(sectionName));
      var numRemoved := before - |sections|;
      if numRemoved == 0 {
        RemoveAllNone(old(sections), SectionNamed(sectionName));
        r := Err(SectionWithNameNotFound(sectionName));
        return;
      }
      WriteChangesToFile();
      r := Ok(());
    }

    /**
     * Adds the channel at the end of its section, creating the section when
     * there is none; a channel of the same name already there is an error.
     */
    method CreateChannel(sectionName: string, body: ChannelDto) returns (r: Result<ChannelDto>)
      modifies this
      ensures Count(old(sections), SectionNamed(sectionName)) > 1 ==>
        r == Err(MoreThanOneMatch) && sections == old(sections) && writeRequests == old(writeRequests)
      ensures Count(old(sections), SectionNamed(sectionName)) <= 1 ==>
        var i := FirstIndex(old(sections), SectionNamed(sectionName));
        if i.Some? && SectionContainsChannel(old(sections)[i.value], body.name) then
          r == Err(ChannelAlreadyExists(body.name, sectionName)) && sections == old(sections) &&
          writeRequests == old(writeRequests)
        else
          r == Ok(body) && writeRequests == old(writeRequests) + 1 &&
          sections == AddToSection(old(sections), sectionName, DtoToEntity(body))
      ensures UniqueSectionNames(old(sections)) ==> UniqueSectionNames(sections)
      ensures UniqueChannelNames(old(sections)) ==> UniqueChannelNames(sections)
    {
      var found := GetOrCreateChannelSection(sectionName);
      if found.Err? {
        r := Err(found.error);
        return;
      }
      var i := found.value;
      var section := sections[i];
      if SectionContainsChannel(section, body.name) {
        r := Err(ChannelAlreadyExists(body.name, sectionName));
        return;
      }
      AppendAfterGetOrCreate(old(sections), sections, i, sectionName, DtoToEntity(body));
      CreateChannelKeepsNamesUnique(old(sections), sectionName, DtoToEntity(body));
      sections := sections[i := ChannelSectionEntity(section.name, section.channels + [DtoToEntity(body)])];
      WriteChangesToFile();
      r := Ok(body);
    }

    /**
     * The channel of that name in the one section of that name: the section
     * must exist, a missing channel is no channel, a duplicated one an error.
     */
    method GetChannel(sectionName: string, channelName: string) returns (r: Result<Option<ChannelDto>>)
      ensures Count(sections, SectionNamed(sectionName)) == 0 ==> r == Err(NameNotFound(sectionName))
      ensures Count(sections, SectionNamed(sectionName)) > 1 ==> r == Err(MoreThanOneMatch)
      ensures Count(sections, SectionNamed(sectionName)) == 1 ==>
        var s := sections[FirstIndex(sections, SectionNamed(sectionName)).value];
        var n := Count(s.channels, ChannelNamed(channelName));
        (n == 0 ==> r == Ok(None)) &&
        (n > 1 ==> r == Err(MoreThanOneMatch)) &&
        (n == 1 ==> r == Ok(Some(EntityToDto(s.channels[FirstIndex(s.channels, ChannelNamed(channelName)).value]))))
    {
      var found := GetChannelSection(sections, sectionName, true);
      if found.Err? {
        r := Err(found.error);
        return;
      }
      var section := sections[found.value.value];
      var channel := SingleIndex(section.channels, ChannelNamed(channelName));
      match channel
      case Err(e) => r := Err(e);
      case Ok(None) => r := Ok(None);
      case Ok(Some(k)) => r := Ok(Some(EntityToDto(section.channels[k])));
    }

    /**
     * Patches the first channel of that name, in place. The section and the
     * channel must exist, and a patch that changes nothing is refused. The
     * new name is not checked against the other channels.
     */
    method UpdateChannel(sectionName: string, channelName: string, body: PatchChannelDto) returns (r: Result<ChannelDto>)
      modifies this
      ensures Count(old(sections), SectionNamed(sectionName)) == 0 ==>
        r == Err(NameNotFound(sectionName)) && sections == old(sections) && writeRequests == old(writeRequests)
      ensures Count(old(sections), SectionNamed(sectionName)) > 1 ==>
        r == Err(MoreThanOneMatch) && sections == old(sections) && writeRequests == old(writeRequests)
      ensures Count(old(sections), SectionNamed(sectionName)) == 1 ==>
        var si := FirstIndex(old(sections), SectionNamed(sectionName)).value;
        var section := old(sections)[si];
        match FirstIndex(section.channels, ChannelNamed(channelName))
        case None =>
          r == Err(NotFoundIn(channelName, sectionName)) && sections == old(sections) &&
          writeRequests == old(writeRequests)
        case Some(ci) =>
          var updated := Patched(section.channels[ci], body);
          if updated == section.channels[ci] then
            r == Err(WouldNotBeUpdated(channelName, sectionName)) && sections == old(sections) &&
            writeRequests == old(writeRequests)
          else
            r == Ok(EntityToDto(updated)) && writeRequests == old(writeRequests) + 1 &&
            sections == old(sections)[si := ChannelSectionEntity(section.name, section.channels[ci := updated])]
      ensures UniqueSectionNames(old(sections)) ==> UniqueSectionNames(sections)
    {
      var found := GetChannelSection(sections, sectionName, true);
      if found.Err? {
        r := Err(found.error);
        return;
      }
      var si := found.value.value;
      var section := sections[si];
      var i := 0;
      while i < |section.channels|
        invariant 0 <= i <= |section.channels|
        invariant forall j :: 0 <= j < i ==> section.channels[j].name != channelName
        invariant sections == old(sections) && writeRequests == old(writeRequests)
      {
        var channel := section.channels[i];
        if channel.name != channelName {
          i := i + 1;
          continue;
        }
        assert FirstIndex(section.channels, ChannelNamed(channelName)) == Some(i) by {
          var k := FirstIndex(section.channels, ChannelNamed(channelName));
          assert ChannelNamed(channelName)(section.channels[i]);
          assert k.Some? && k.value <= i;
        }
        var updated := Patched(channel, body);
        if updated == channel {
          r := Err(WouldNotBeUpdated(channelName, sectionName));
          return;
        }
        ReplaceChannelsKeepsSectionNamesUnique(sections, si, section.channels[i := updated]);
        sections := sections[si := section.(channels := section.channels[i := updated])];
        WriteChangesToFile();
        r := Ok(EntityToDto(updated));
        return;
      }
      r := Err(NotFoundIn(channelName, sectionName));
    }

    /** Removes every channel of that name from the one section of that name. */
    method DeleteChannel(sectionName: string, channelName: string) returns (r: Result<()>)
      modifies this
      ensures Count(old(sections), SectionNamed(sectionName)) == 0 ==>
        r == Err(NameNotFound(sectionName)) && sections == old(sections) && writeRequests == old(writeRequests)
      ensures Count(old(sections), SectionNamed(sectionName)) > 1 ==>
        r == Err(MoreThanOneMatch) && sections == old(sections) && writeRequests == old(writeRequests)
      ensures Count(old(sections), SectionNamed(sectionName)) == 1 ==>
        var si := FirstIndex(old(sections), SectionNamed(sectionName)).value;
        var section := old(sections)[si];
        if Count(section.channels, ChannelNamed(channelName)) == 0 then
          r == Err(NotFoundIn(channelName, sectionName)) && sections == old(sections) &&
          writeRequests == old(writeRequests)
        else
          r == Ok(()) && writeRequests == old(writeRequests) + 1 &&
          sections == old(sections)[si := ChannelSectionEntity(section.name, RemoveAll(section.channels, ChannelNamed(channelName)))]
      ensures UniqueSectionNames(old(sections)) ==> UniqueSectionNames(sections)
      ensures UniqueChannelNames(old(sections)) ==> UniqueChannelNames(sections)
    {
      var found := GetChannelSection(sections, sectionName, true);
      if found.Err? {
        r := Err(found.error);
        return;
      }
      var si := found.value.value;
      var section := sections[si];
      var remaining := RemoveAll(section.channels, ChannelNamed(channelName));
      ReplaceChannelsKeepsSectionNamesUnique(sections, si, remaining);
      RemoveChannelsKeepsChannelNamesUnique(sections, si, channelName);
      assert Count(old(sections), SectionNamed(sectionName)) == 1;
      sections := sections[si := section.(channels := remaining)];
      var numRemoved := |section.channels| - |remaining|;
      if numRemoved == 0 {
        RemoveAllNone(section.channels, ChannelNamed(channelName));
        assert sections[si] == old(sections)[si];
        r := Err(NotFoundIn(channelName, sectionName));
        return;
      }
      WriteChangesToFile();
      r := Ok(());
    }

    /**
     * Pops the one channel of that name from `from` and appends it to `to`,
     * creating `to` when absent. The destination is looked up after the pop,
     * so a duplicated destination name leaves the channel in neither section;
     * there is no check for a channel of that name already at `to`.
     */
    method MoveChannel(channelName: string, body: MoveChannelDto) returns (r: Result<()>)
      modifies this
      ensures Count(old(sections), SectionNamed(body.from)) == 0 ==>
        r == Err(NameNotFound(body.from)) && sections == old(sections) && writeRequests == old(writeRequests)
      ensures Count(old(sections), SectionNamed(body.from)) > 1 ==>
        r == Err(MoreThanOneMatch) && sections == old(sections) && writeRequests == old(writeRequests)
      ensures Count(old(sections), SectionNamed(body.from)) == 1 ==>
        var fi := FirstIndex(old(sections), SectionNamed(body.from)).value;
        var from := old(sections)[fi];
        var n := Count(from.channels, ChannelNamed(channelName));
        (n == 0 ==> r == Err(NoItemsFound) && sections == old(sections) && writeRequests == old(writeRequests)) &&
        (n > 1 ==> r == Err(MultipleItemsFound) && sections == old(sections) && writeRequests == old(writeRequests)) &&
        (n == 1 ==>
          var ci := FirstIndex(from.channels, ChannelNamed(channelName)).value;
          var popped := old(sections)[fi := ChannelSectionEntity(from.name, RemoveAt(from.channels, ci))];
          var m := Count(popped, SectionNamed(body.to));
          (m > 1 ==> r == Err(MoreThanOneMatch) && sections == popped && writeRequests == old(writeRequests)) &&
          (m <= 1 ==>
            r == Ok(()) && writeRequests == old(writeRequests) + 1 &&
            sections == AddToSection(popped, body.to, from.channels[ci])))
      ensures UniqueSectionNames(old(sections)) ==> UniqueSectionNames(sections)
    {
      var found := GetChannelSection(sections, body.from, true);
      if found.Err? {
        r := Err(found.error);
        return;
      }
      var fi := found.value.value;
      var from := sections[fi];
      var channel, rest := PopSingle(from.channels, ChannelNamed(channelName));
      if channel.Err? {
        r := Err(channel.error);
        return;
      }
      ReplaceChannelsKeepsSectionNamesUnique(sections, fi, rest);
      sections := sections[fi := from.(channels := rest)];
      ghost var popped := sections;
      var to := GetOrCreateChannelSection(body.to);
      if to.Err? {
        r := Err(to.error);
        return;
      }
      var ti := to.value;
      AppendAfterGetOrCreate(popped, sections, ti, body.to, channel.value);
      AddToSectionKeepsSectionNamesUnique(popped, body.to, channel.value);
      sections := sections[ti := ChannelSectionEntity(sections[ti].name, sections[ti].channels + [channel.value])];
      WriteChangesToFile();
      r := Ok(());
    }
  }

  /**
   * The sections once channel `c` is appended to the section named `name`,
   * which is first added at the end, empty, when there is none: what
   * GetOrCreateChannelSection followed by `Channels.Add` leaves behind.
   */
  function AddToSection(sections: seq<ChannelSectionEntity>, name: string, c: ChannelEntity): (r: seq<ChannelSectionEntity>)
    requires Count(sections, SectionNamed(name)) <= 1
    ensures Count(r, SectionNamed(name)) == 1
    ensures
      var held := if Count(sections, SectionNamed(name)) == 0 then []
        else sections[FirstIndex(sections, SectionNamed(name)).value].channels;
      r[FirstIndex(r, SectionNamed(name)).value].channels == held + [c]
    ensures SectionContainsChannel(r[FirstIndex(r, SectionNamed(name)).value], c.name)
    ensures |r| == if Count(sections, SectionNamed(name)) == 0 then |sections| + 1 else |sections|
    ensures forall k :: 0 <= k < |sections| ==> r[k].name == sections[k].name
    ensures forall k :: 0 <= k < |sections| && sections[k].name != name ==> r[k] == sections[k]
  {
    match FirstIndex(sections, SectionNamed(name))
    case None =>
      CountConcat(sections, [ChannelSectionEntity(name, [c])], SectionNamed(name));
      var r := sections + [ChannelSectionEntity(name, [c])];
      assert FirstIndex(r, SectionNamed(name)) == Some(|sections|);
      assert c in r[|sections|].channels;
      assert [] + [c] == [c];
      r
    case Some(i) =>
      AppendChannel(sections, i, c);
      sections[i := ChannelSectionEntity(sections[i].name, sections[i].channels + [c])]
  }

  /** AddToSection leaves the lookup of every other section name as it was. */
  lemma {:induction false} AddToSectionKeepsOtherSections(sections: seq<ChannelSectionEntity>, name: string, c: ChannelEntity, other: string)
    requires Count(sections, SectionNamed(name)) <= 1 && other != name
    ensures
      var r := AddToSection(sections, name, c);
      && Count(r, SectionNamed(other)) == Count(sections, SectionNamed(other))
      && FirstIndex(r, SectionNamed(other)) == FirstIndex(sections, SectionNamed(other))
      && (FirstIndex(r, SectionNamed(other)).Some? ==>
            r[FirstIndex(r, SectionNamed(other)).value] == sections[FirstIndex(sections, SectionNamed(other)).value])
  {
    var r := AddToSection(sections, name, c);
    if Count(sections, SectionNamed(name)) == 0 {
      var added := [ChannelSectionEntity(name, [c])];
      assert r == sections + added;
      CountConcat(sections, added, SectionNamed(other));
      FirstIndexPrefix(sections, added, SectionNamed(other));
    } else {
      CountSameNames(sections, r, other);
    }
    var k := FirstIndex(sections, SectionNamed(other));
    if k.Some? {
      assert sections[k.value].name != name;
    }
  }

  /**
   * GetOrCreateChannelSection followed by appending to the section it
   * returns is AddToSection of the sections it started from.
   */
  lemma {:induction false} AppendAfterGetOrCreate(before: seq<ChannelSectionEntity>, grown: seq<ChannelSectionEntity>,
                                                  i: nat, name: string, c: ChannelEntity)
    requires Count(before, SectionNamed(name)) <= 1
    requires Count(before, SectionNamed(name)) == 1 ==> i == FirstIndex(before, SectionNamed(name)).value && grown == before
    requires Count(before, SectionNamed(name)) == 0 ==> i == |before| && grown == before + [ChannelSectionEntity(name, [])]
    ensures i < |grown|
    ensures grown[i := ChannelSectionEntity(grown[i].name, grown[i].channels + [c])] == AddToSection(before, name, c)
  {
    if Count(before, SectionNamed(name)) == 0 {
      var after := grown[i := ChannelSectionEntity(name, grown[i].channels + [c])];
      assert grown[i].channels + [c] == [c];
      assert after[..i] == before;
      assert after == after[..i] + [after[i]];
    }
  }

  /**
   * Appending a channel whose name the destination section does not hold
   * yet keeps channel names unique within every section.
   */
  lemma {:induction false} AddToSectionKeepsChannelNamesUnique(sections: seq<ChannelSectionEntity>, name: string, c: ChannelEntity)
    requires Count(sections, SectionNamed(name)) <= 1
    requires forall k :: 0 <= k < |sections| && sections[k].name == name ==> !SectionContainsChannel(sections[k], c.name)
    requires UniqueChannelNames(sections)
    ensures UniqueChannelNames(AddToSection(sections, name, c))
  {
    var r := AddToSection(sections, name, c);
    var f := FirstIndex(sections, SectionNamed(name));
    forall k, a, b | 0 <= k < |r| && 0 <= a < b < |r[k].channels|
      ensures r[k].channels[a].name != r[k].channels[b].name
    {
      if f.Some? && k == f.value {
        var held := sections[k].channels;
        assert r[k].channels == held + [c];
        if b == |held| {
          assert held[a] in held;
        }
      } else if k < |sections| {
        assert r[k] == sections[k];
      }
    }
  }

  /**
   * What CreateChannel does on success keeps both kinds of names unique:
   * the first section of that name, if any, lacks the channel.
   */
  lemma {:induction false} CreateChannelKeepsNamesUnique(sections: seq<ChannelSectionEntity>, name: string, c: ChannelEntity)
    requires Count(sections, SectionNamed(name)) <= 1
    requires
      var i := FirstIndex(sections, SectionNamed(name));
      i.Some? ==> !SectionContainsChannel(sections[i.value], c.name)
    ensures UniqueSectionNames(sections) ==> UniqueSectionNames(AddToSection(sections, name, c))
    ensures UniqueChannelNames(sections) ==> UniqueChannelNames(AddToSection(sections, name, c))
  {
    AddToSectionKeepsSectionNamesUnique(sections, name, c);
    if UniqueChannelNames(sections) {
      // Only the first section of that name carries it, and it lacks the channel.
      forall k | 0 <= k < |sections| && sections[k].name == name
        ensures !SectionContainsChannel(sections[k], c.name)
      {
        SingleMatch(sections, SectionNamed(name), k, FirstIndex(sections, SectionNamed(name)).value);
      }
      AddToSectionKeepsChannelNamesUnique(sections, name, c);
    }
  }

  /** Appending to the one section of a name, or adding a new one, keeps section names unique. */
  lemma {:induction false} AddToSectionKeepsSectionNamesUnique(sections: seq<ChannelSectionEntity>, name: string, c: ChannelEntity)
    requires Count(sections, SectionNamed(name)) <= 1
    ensures UniqueSectionNames(sections) ==> UniqueSectionNames(AddToSection(sections, name, c))
  {
    var r := AddToSection(sections, name, c);
    if UniqueSectionNames(sections) && FirstIndex(sections, SectionNamed(name)).None? {
      assert r == sections + [ChannelSectionEntity(name, [c])];
      forall i, j | 0 <= i < j < |r| ensures r[i].name != r[j].name {
        if j == |sections| {
          assert !SectionNamed(name)(sections[i]);
        }
      }
    }
  }

  /** Dropping every section of a name keeps both kinds of names unique. */
  lemma {:induction false} RemoveAllKeepsNamesUnique(sections: seq<ChannelSectionEntity>, name: string)
    ensures UniqueSectionNames(sections) ==> UniqueSectionNames(RemoveAll(sections, SectionNamed(name)))
    ensures UniqueChannelNames(sections) ==> UniqueChannelNames(RemoveAll(sections, SectionNamed(name)))
  {
    var r := RemoveAll(sections, SectionNamed(name));
    if UniqueSectionNames(sections) {
      assert DistinctBy(sections, SectionName);
      RemoveAllKeepsDistinct(sections, SectionNamed(name), SectionName);
      assert DistinctBy(r, SectionName);
    }
    if UniqueChannelNames(sections) {
      forall k, i, j | 0 <= k < |r| && 0 <= i < j < |r[k].channels|
        ensures r[k].channels[i].name != r[k].channels[j].name
      {
        assert r[k] in sections;
        var m :| 0 <= m < |sections| && sections[m] == r[k];
      }
    }
  }

  /** Replacing the channels of one section keeps its name, so section names stay unique. */
  lemma {:induction false} ReplaceChannelsKeepsSectionNamesUnique(sections: seq<ChannelSectionEntity>, si: nat, channels: seq<ChannelEntity>)
    requires si < |sections|
    ensures UniqueSectionNames(sections) ==>
      UniqueSectionNames(sections[si := ChannelSectionEntity(sections[si].name, channels)])
  {
    var r := sections[si := ChannelSectionEntity(sections[si].name, channels)];
    assert forall k :: 0 <= k < |r| ==> r[k].name == sections[k].name;
  }

  /** Removing channels from one section keeps channel names unique. */
  lemma {:induction false} RemoveChannelsKeepsChannelNamesUnique(sections: seq<ChannelSectionEntity>, si: nat, channelName: string)
    requires si < |sections|
    ensures UniqueChannelNames(sections) ==>
      UniqueChannelNames(sections[si := ChannelSectionEntity(sections[si].name,
                                                             RemoveAll(sections[si].channels, ChannelNamed(channelName)))])
  {
    if UniqueChannelNames(sections) {
      var channels := RemoveAll(sections[si].channels, ChannelNamed(channelName));
      assert DistinctBy(sections[si].channels, ChannelName);
      RemoveAllKeepsDistinct(sections[si].channels, ChannelNamed(channelName), ChannelName);
      var r := sections[si := ChannelSectionEntity(sections[si].name, channels)];
      forall k, i, j | 0 <= k < |r| && 0 <= i < j < |r[k].channels|
        ensures r[k].channels[i].name != r[k].channels[j].name
      {
        if k == si {
          assert ChannelName(channels[i]) != ChannelName(channels[j]);
        }
      }
    }
  }

  /**
   * Appending a channel to the one section of a name keeps it the one
   * section of that name, now holding the channel.
   */
  lemma {:induction false} AppendChannel(before: seq<ChannelSectionEntity>, i: nat, c: ChannelEntity)
    requires i < |before| && Count(before, SectionNamed(before[i].name)) == 1
    ensures
      var after := before[i := ChannelSectionEntity(before[i].name, before[i].channels + [c])];
      && FirstIndex(after, SectionNamed(before[i].name)) == Some(i)
      && Count(after, SectionNamed(before[i].name)) == 1
      && SectionContainsChannel(after[i], c.name)
  {
    var name := before[i].name;
    var after := before[i := ChannelSectionEntity(name, before[i].channels + [c])];
    CountSameNames(before, after, name);
    SingleMatch(before, SectionNamed(name), i, FirstIndex(before, SectionNamed(name)).value);
    assert c in after[i].channels;
  }

  /** Lists whose section names agree position by position have the same lookups. */
  lemma {:induction false} CountSameNames(a: seq<ChannelSectionEntity>, b: seq<ChannelSectionEntity>, name: string)
    requires |a| == |b| && forall i :: 0 <= i < |a| ==> a[i].name == b[i].name
    ensures Count(a, SectionNamed(name)) == Count(b, SectionNamed(name))
    ensures FirstIndex(a, SectionNamed(name)) == FirstIndex(b, SectionNamed(name))
  {
    if a != [] {
      CountSameNames(a[1..], b[1..], name);
    }
  }
}
