/**
 * Properties of call sequences on the two stores, proved from the methods'
 * contracts alone: repeated creation, repeated updates, and operations
 * followed by their inverse.
 */
module Scenarios {
  import opened Outcomes
  import opened Tools
  import opened Services
  import opened Repository

  /**
   * Creating a section twice succeeds twice with the same answer, leaves
   * exactly one section of that name and requests no write.
   */
  method CreateSectionTwice(service: ConfigService, name: string)
    returns (first: Result<ChannelSectionDto>, second: Result<ChannelSectionDto>)
    requires UniqueSectionNames(service.sections)
    modifies service
    ensures first.Ok? && second == first
    ensures Count(service.sections, SectionNamed(name)) == 1
    ensures UniqueSectionNames(service.sections)
    ensures service.writeRequests == old(service.writeRequests)
  {
    UniqueNamesLookup(service.sections, name);
    first := service.CreateSection(name);
    second := service.CreateSection(name);
  }

  /**
   * A second channel with the name of one just created in the same section
   * is refused, and the section is left as the first call made it: one
   * section of that name, ending with the first channel, the only one of
   * that name.
   */
  method CreateChannelTwice(service: ConfigService, sectionName: string, a: ChannelDto, b: ChannelDto)
    returns (first: Result<ChannelDto>, second: Result<ChannelDto>)
    requires UniqueSectionNames(service.sections)
    requires a.name == b.name
    modifies service
    ensures first.Ok? ==> second == Err(ChannelAlreadyExists(b.name, sectionName))
    ensures first.Ok? ==> service.writeRequests == old(service.writeRequests) + 1
    ensures first.Ok? ==> Count(service.sections, SectionNamed(sectionName)) == 1
    ensures first.Ok? ==>
      var channels := service.sections[FirstIndex(service.sections, SectionNamed(sectionName)).value].channels;
      Count(channels, ChannelNamed(a.name)) == 1 && channels[|channels| - 1] == DtoToEntity(a)
  {
    ghost var before := service.sections;
    UniqueNamesLookup(before, sectionName);
    first := service.CreateChannel(sectionName, a);
    if first.Ok? {
      // The section held no channel of that name, and now ends with the new one.
      var held := if Count(before, SectionNamed(sectionName)) == 0 then []
        else before[FirstIndex(before, SectionNamed(sectionName)).value].channels;
      CountConcat(held, [DtoToEntity(a)], ChannelNamed(a.name));
    }
    second := service.CreateChannel(sectionName, b);
  }

  /** Repeating a successful update with the same patch is refused as a no-op. */
  method UpdateChannelTwice(service: ConfigService, sectionName: string, channelName: string, patch: PatchChannelDto)
    returns (first: Result<ChannelDto>, second: Result<ChannelDto>)
    requires UniqueSectionNames(service.sections)
    requires patch.name.None?
    modifies service
    ensures first.Ok? ==> second == Err(WouldNotBeUpdated(channelName, sectionName))
  {
    UniqueNamesLookup(service.sections, sectionName);
    ghost var before := service.sections;
    first := service.UpdateChannel(sectionName, channelName, patch);
    if first.Ok? {
      CountSameNames(before, service.sections, sectionName);
      var section := before[FirstIndex(before, SectionNamed(sectionName)).value];
      var ci := FirstIndex(section.channels, ChannelNamed(channelName)).value;
      var updated := Patched(section.channels[ci], patch);
      var channels := section.channels[ci := updated];
      assert FirstIndex(channels, ChannelNamed(channelName)) == Some(ci) by {
        var k := FirstIndex(channels, ChannelNamed(channelName));
        assert ChannelNamed(channelName)(channels[ci]);
        assert k.Some? && k.value <= ci;
      }
      PatchedIdempotent(section.channels[ci], patch);
    }
    second := service.UpdateChannel(sectionName, channelName, patch);
  }

  /**
   * After a successful move between two different sections, the channel is
   * found in the destination, with its id and folder kept, and no longer in
   * the source, provided section
   * names are unique and the destination had no channel of that name (the
   * move itself does not check the latter).
   */
  method MoveThenGet(service: ConfigService, channelName: string, body: MoveChannelDto)
    returns (moved: Result<()>, atTo: Result<Option<ChannelDto>>, atFrom: Result<Option<ChannelDto>>)
    requires UniqueSectionNames(service.sections)
    requires body.from != body.to
    requires forall s :: s in service.sections && s.name == body.to ==> !SectionContainsChannel(s, channelName)
    modifies service
    ensures moved.Ok? ==> atFrom == Ok(None)
    ensures moved.Ok? ==>
      var before := old(service.sections);
      Count(before, SectionNamed(body.from)) == 1 &&
      var from := before[FirstIndex(before, SectionNamed(body.from)).value];
      Count(from.channels, ChannelNamed(channelName)) == 1 &&
      atTo == Ok(Some(EntityToDto(from.channels[FirstIndex(from.channels, ChannelNamed(channelName)).value])))
  {
    ghost var before := service.sections;
    UniqueNamesLookup(before, body.to);
    moved := service.MoveChannel(channelName, body);
    if moved.Ok? {
      assert Count(before, SectionNamed(body.from)) == 1;
      MovedChannelIsFound(before, service.sections, channelName, body);
    }
    atTo := service.GetChannel(body.to, channelName);
    atFrom := service.GetChannel(body.from, channelName);
  }

  /** What a successful move leaves behind, stated over the sections before and after it. */
  lemma {:induction false} MovedChannelIsFound(before: seq<ChannelSectionEntity>, after: seq<ChannelSectionEntity>,
                                               channelName: string, body: MoveChannelDto)
    requires UniqueSectionNames(before) && body.from != body.to
    requires forall s :: s in before && s.name == body.to ==> !SectionContainsChannel(s, channelName)
    requires Count(before, SectionNamed(body.from)) == 1
    requires Count(before[FirstIndex(before, SectionNamed(body.from)).value].channels, ChannelNamed(channelName)) == 1
    requires
      var fi := FirstIndex(before, SectionNamed(body.from)).value;
      var from := before[fi];
      var ci := FirstIndex(from.channels, ChannelNamed(channelName)).value;
      var popped := before[fi := ChannelSectionEntity(from.name, RemoveAt(from.channels, ci))];
      Count(popped, SectionNamed(body.to)) <= 1 && after == AddToSection(popped, body.to, from.channels[ci])
    ensures Count(after, SectionNamed(body.from)) == 1
    ensures Count(after[FirstIndex(after, SectionNamed(body.from)).value].channels, ChannelNamed(channelName)) == 0
    ensures Count(after, SectionNamed(body.to)) == 1
    ensures Count(after[FirstIndex(after, SectionNamed(body.to)).value].channels, ChannelNamed(channelName)) == 1
    ensures
      var from := before[FirstIndex(before, SectionNamed(body.from)).value];
      var to := after[FirstIndex(after, SectionNamed(body.to)).value];
      to.channels[FirstIndex(to.channels, ChannelNamed(channelName)).value] ==
        from.channels[FirstIndex(from.channels, ChannelNamed(channelName)).value]
  {
    var fi := FirstIndex(before, SectionNamed(body.from)).value;
    var from := before[fi];
    var ci := FirstIndex(from.channels, ChannelNamed(channelName)).value;
    var popped := before[fi := ChannelSectionEntity(from.name, RemoveAt(from.channels, ci))];
    var moved := from.channels[ci];
    CountSameNames(before, popped, body.from);
    CountSameNames(before, popped, body.to);
    RemoveSingleMatch(from.channels, ChannelNamed(channelName), ci);
    AddToSectionKeepsOtherSections(popped, body.to, moved, body.from);
    // The destination held no channel of that name, so it now holds exactly one.
    var held := if Count(popped, SectionNamed(body.to)) == 0 then []
      else popped[FirstIndex(popped, SectionNamed(body.to)).value].channels;
    if Count(popped, SectionNamed(body.to)) > 0 {
      var ti := FirstIndex(before, SectionNamed(body.to)).value;
      assert before[ti] in before;
    }
    assert Count(held, ChannelNamed(channelName)) == 0;
    AppendedIsOnlyMatch(held, moved, ChannelNamed(channelName));
  }

  /**
   * RenameSection does not check the new name against the other sections:
   * renaming `a` to `b` next to an existing `b` leaves two sections `b`.
   */
  method RenameSectionCanDuplicate(service: ConfigService)
    requires service.sections == [ChannelSectionEntity("a", []), ChannelSectionEntity("b", [])]
    modifies service
    ensures UniqueSectionNames(old(service.sections)) && !UniqueSectionNames(service.sections)
  {
    assert SectionNamed("a")(service.sections[0]);
    var r := service.RenameSection("a", "b");
    assert service.sections[0].name == service.sections[1].name;
  }

  /**
   * UpdateChannel does not check a new name against the other channels:
   * renaming `x` to `y` next to an existing `y` leaves two channels `y`.
   */
  method UpdateChannelCanDuplicate(service: ConfigService)
    requires service.sections ==
      [ChannelSectionEntity("s", [ChannelEntity(1, "x", "f"), ChannelEntity(2, "y", "g")])]
    modifies service
    ensures UniqueChannelNames(old(service.sections)) && !UniqueChannelNames(service.sections)
  {
    ghost var before := service.sections;
    assert Count(before, SectionNamed("s")) == 1 by {
      assert before[1..] == [];
    }
    assert FirstIndex(before, SectionNamed("s")) == Some(0);
    assert FirstIndex(before[0].channels, ChannelNamed("x")) == Some(0) by {
      assert ChannelNamed("x")(before[0].channels[0]);
    }
    var r := service.UpdateChannel("s", "x", PatchChannelDto(None, Some("y"), None));
    assert service.sections[0].channels[0].name == service.sections[0].channels[1].name;
  }

  /**
   * MoveChannel does not check the destination for a channel of the same
   * name: moving `x` into a section that already holds an `x` leaves two.
   */
  method MoveChannelCanDuplicate(service: ConfigService)
    requires service.sections ==
      [ChannelSectionEntity("a", [ChannelEntity(1, "x", "f")]), ChannelSectionEntity("b", [ChannelEntity(2, "x", "g")])]
    modifies service
    ensures UniqueSectionNames(service.sections)
    ensures UniqueChannelNames(old(service.sections)) && !UniqueChannelNames(service.sections)
  {
    ghost var before := service.sections;
    assert Count(before, SectionNamed("a")) == 1 by {
      assert before[1..][1..] == [];
    }
    assert FirstIndex(before, SectionNamed("a")) == Some(0);
    assert Count(before[0].channels, ChannelNamed("x")) == 1 by {
      assert before[0].channels[1..] == [];
    }
    assert FirstIndex(before[0].channels, ChannelNamed("x")) == Some(0);
    ghost var popped := before[0 := ChannelSectionEntity("a", RemoveAt(before[0].channels, 0))];
    assert Count(popped, SectionNamed("b")) == 1 by {
      assert popped[1..][1..] == [];
    }
    assert FirstIndex(popped, SectionNamed("b")) == Some(1) by {
      assert !SectionNamed("b")(popped[0]);
    }
    var r := service.MoveChannel("x", MoveChannelDto("a", "b"));
    assert FirstIndex(service.sections, SectionNamed("b")) == Some(1) by {
      assert !SectionNamed("b")(service.sections[0]);
      assert SectionNamed("b")(service.sections[1]);
    }
    assert service.sections[1].channels == [ChannelEntity(2, "x", "g"), ChannelEntity(1, "x", "f")];
  }

  /** Renaming a user and renaming it back restores the store. */
  method RenameAndBack(repo: TwitchPingerConfigRepository, section: string, a: string, b: string)
    requires section in repo.configFile && a in repo.configFile[section] && b !in repo.configFile[section]
    modifies repo
    ensures repo.configFile == old(repo.configFile)
    ensures repo.writeRequests == old(repo.writeRequests) + 2
  {
    ghost var entry := repo.configFile[section];
    var there := repo.Rename(a, b, section);
    var back := repo.Rename(b, a, section);
    assert repo.configFile[section] == entry;
  }

  /** Moving a user to an existing section and back restores the store. */
  method MoveAndBack(repo: TwitchPingerConfigRepository, from: string, to: string, user: string)
    requires from in repo.configFile && to in repo.configFile && from != to
    requires user in repo.configFile[from] && user !in repo.configFile[to]
    modifies repo
    ensures repo.configFile == old(repo.configFile)
    ensures repo.writeRequests == old(repo.writeRequests) + 2
  {
    ghost var source, target := repo.configFile[from], repo.configFile[to];
    var there := repo.Move(from, to, user);
    var back := repo.Move(to, from, user);
    assert repo.configFile[from] == source && repo.configFile[to] == target;
  }

  /** Adding a new user to an existing section and deleting it restores the store. */
  method AddAndDelete(repo: TwitchPingerConfigRepository, section: string, user: string, id: int)
    requires section in repo.configFile && user !in repo.configFile[section]
    modifies repo
    ensures repo.configFile == old(repo.configFile)
    ensures repo.writeRequests == old(repo.writeRequests) + 2
  {
    ghost var entry := repo.configFile[section];
    var added := repo.Add(section, user, id);
    var deleted := repo.DeleteUsername(section, user);
    assert repo.configFile[section] == entry;
  }
}
