/**
 * The older configuration store: a dictionary from section name to a
 * dictionary from username to numeric id, changed in place. The order in
 * which the dictionaries enumerate is not specified, so the listings pick
 * their next key arbitrarily. Every request to write the file is counted
 * in the ghost field `writeRequests`.
 */
module Repository {
  import opened Outcomes

  datatype ChannelMap = ChannelMap(username: string, id: int)
  datatype ChannelMapSection = ChannelMapSection(key: string, items: seq<ChannelMap>)

  type ConfigFileEntry = map<string, int>
  type ConfigFile = map<string, ConfigFileEntry>

  /** `key.StartsWith('#')`: such entries are left out of the full listing. */
  predicate Hidden(key: string)
    ensures Hidden(key) <==> "#" <= key
  {
    |key| > 0 && key[0] == '#'
  }

  /** The entries of a section that are not hidden. */
  function Visible(entry: ConfigFileEntry): (r: ConfigFileEntry)
    ensures r.Keys <= entry.Keys
    ensures forall u :: u in r ==> !Hidden(u) && r[u] == entry[u]
    ensures forall u :: u in entry && !Hidden(u) ==> u in r
  {
    map u | u in entry && !Hidden(u) :: entry[u]
  }

  /** `GetOrAdd(section, new())`: the section's entries, or none when it is absent. */
  function EntryOrEmpty(configFile: ConfigFile, section: string): (r: ConfigFileEntry)
    ensures section in configFile ==> configFile[section := r] == configFile
    ensures section !in configFile ==> r == map[] && configFile[section := r].Keys == configFile.Keys + {section}
  {
    if section in configFile then configFile[section] else map[]
  }

  /** Appending the section just taken keeps every section taken so far listed. */
  lemma {:induction false} KeysCovered(before: seq<ChannelMapSection>, after: seq<ChannelMapSection>,
                                       name: string, items: seq<ChannelMap>, keys: set<string>, left: set<string>)
    requires after == before + [ChannelMapSection(name, items)]
    requires forall k :: k in keys && k !in left ==> exists i :: 0 <= i < |before| && before[i].key == k
    ensures forall k :: k in keys && k !in left - {name} ==> exists i :: 0 <= i < |after| && after[i].key == k
  {
    forall k | k in keys && k !in left - {name} ensures exists i :: 0 <= i < |after| && after[i].key == k {
      if k == name {
        assert after[|after| - 1].key == k;
      } else {
        var i :| 0 <= i < |before| && before[i].key == k;
        assert after[i].key == k;
      }
    }
  }

  /**
   * Appending the section just taken, with its visible entries, keeps the
   * listing's keys distinct and taken, and every listed section exact.
   */
  lemma {:induction false} ListingStep(before: seq<ChannelMapSection>, name: string, items: seq<ChannelMap>,
                                       configFile: ConfigFile, left: set<string>)
    requires name in left && left <= configFile.Keys
    requires forall i, j :: 0 <= i < j < |before| ==> before[i].key != before[j].key
    requires forall i :: 0 <= i < |before| ==> before[i].key in configFile && before[i].key !in left
    requires forall i :: 0 <= i < |before| ==> Enumerates(before[i].items, Visible(configFile[before[i].key]))
    requires Enumerates(items, Visible(configFile[name]))
    ensures
      var after := before + [ChannelMapSection(name, items)];
      && (forall i, j :: 0 <= i < j < |after| ==> after[i].key != after[j].key)
      && (forall i :: 0 <= i < |after| ==> after[i].key in configFile && after[i].key !in left - {name})
      && (forall i :: 0 <= i < |after| ==> Enumerates(after[i].items, Visible(configFile[after[i].key])))
  {
    var after := before + [ChannelMapSection(name, items)];
    assert forall i :: 0 <= i < |before| ==> after[i] == before[i];
  }

  /** `items` lists each entry of `m` exactly once. */
  ghost predicate Enumerates(items: seq<ChannelMap>, m: ConfigFileEntry) {
    && (forall i, j :: 0 <= i < j < |items| ==> items[i].username != items[j].username)
    && (forall i :: 0 <= i < |items| ==> items[i].username in m && m[items[i].username] == items[i].id)
    && (forall u :: u in m ==> exists i :: 0 <= i < |items| && items[i].username == u)
  }

  /**
   * The entries of one section, in the dictionary's order, skipping the
   * hidden ones: the `Where(...).Select(...)` of the full listing.
   */
  method VisibleItems(entry: ConfigFileEntry) returns (list: seq<ChannelMap>)
    ensures Enumerates(list, Visible(entry))
  {
    list := [];
    var usersLeft := entry.Keys;
    while usersLeft != {}
      invariant usersLeft <= entry.Keys
      invariant forall i, j :: 0 <= i < j < |list| ==> list[i].username != list[j].username
      invariant forall i :: 0 <= i < |list| ==>
        list[i].username in entry && list[i].username !in usersLeft &&
        !Hidden(list[i].username) && entry[list[i].username] == list[i].id
      invariant forall u :: u in entry && u !in usersLeft && !Hidden(u) ==>
        exists i :: 0 <= i < |list| && list[i].username == u
      decreases usersLeft
    {
      var key :| key in usersLeft;
      ghost var before := list;
      if !Hidden(key) {
        list := list + [ChannelMap(key, entry[key])];
      }
      usersLeft := usersLeft - {key};
      forall u | u in entry && u !in usersLeft && !Hidden(u)
        ensures exists i :: 0 <= i < |list| && list[i].username == u
      {
        if u == key {
          assert list[|list| - 1].username == u;
        } else {
          var i :| 0 <= i < |before| && before[i].username == u;
          assert list[i].username == u;
        }
      }
    }
  }

  class TwitchPingerConfigRepository {
    var configFile: ConfigFile
    ghost var writeRequests: nat

    /** The store over the dictionary read from the file. */
    constructor (loaded: ConfigFile)
      ensures configFile == loaded && writeRequests == 0
    {
      configFile := loaded;
      writeRequests := 0;
    }

    /** Requests, without waiting for it, that the whole state be written to the file. */
    ghost method WriteChangesToFile()
      modifies this`writeRequests
      ensures writeRequests == old(writeRequests) + 1
    {
      writeRequests := writeRequests + 1;
    }

    /** Every section once, each with its entries except the hidden ones. */
    method GetAll() returns (r: seq<ChannelMapSection>)
      ensures forall i, j :: 0 <= i < j < |r| ==> r[i].key != r[j].key
      ensures forall i :: 0 <= i < |r| ==> r[i].key in configFile
      ensures forall k :: k in configFile ==> exists i :: 0 <= i < |r| && r[i].key == k
      ensures forall i :: 0 <= i < |r| ==> Enumerates(r[i].items, Visible(configFile[r[i].key]))
    {
      r := [];
      var sectionsLeft := configFile.Keys;
      while sectionsLeft != {}
        invariant sectionsLeft <= configFile.Keys
        invariant forall i, j :: 0 <= i < j < |r| ==> r[i].key != r[j].key
        invariant forall i :: 0 <= i < |r| ==> r[i].key in configFile && r[i].key !in sectionsLeft
        invariant forall k :: k in configFile && k !in sectionsLeft ==> exists i :: 0 <= i < |r| && r[i].key == k
        invariant forall i :: 0 <= i < |r| ==> Enumerates(r[i].items, Visible(configFile[r[i].key]))
        decreases sectionsLeft
      {
        var name :| name in sectionsLeft;
        var list := VisibleItems(configFile[name]);
        ghost var before := r;
        ListingStep(before, name, list, configFile, sectionsLeft);
        r := r + [ChannelMapSection(name, list)];
        KeysCovered(before, r, name, list, configFile.Keys, sectionsLeft);
        sectionsLeft := sectionsLeft - {name};
      }
    }

    /** The entries of the section, hidden ones included; nothing for an unknown section. */
    method GetUsers(sectionName: string) returns (r: seq<ChannelMap>)
      ensures sectionName !in configFile ==> r == []
      ensures sectionName in configFile ==> Enumerates(r, configFile[sectionName])
    {
      r := [];
      if sectionName in configFile {
        var entry := configFile[sectionName];
        var usersLeft := entry.Keys;
        while usersLeft != {}
          invariant usersLeft <= entry.Keys
          invariant forall i, j :: 0 <= i < j < |r| ==> r[i].username != r[j].username
          invariant forall i :: 0 <= i < |r| ==>
            r[i].username in entry && r[i].username !in usersLeft && entry[r[i].username] == r[i].id
          invariant forall u :: u in entry && u !in usersLeft ==> exists i :: 0 <= i < |r| && r[i].username == u
          decreases usersLeft
        {
          var key :| key in usersLeft;
          ghost var before := r;
          r := r + [ChannelMap(key, entry[key])];
          usersLeft := usersLeft - {key};
          forall u | u in entry && u !in usersLeft ensures exists i :: 0 <= i < |r| && r[i].username == u {
            if u == key {
              assert r[|r| - 1].username == u;
            } else {
              var i :| 0 <= i < |before| && before[i].username == u;
              assert r[i].username == u;
            }
          }
        }
      }
    }

    /**
     * Adds the user to the section, creating the section when absent; a user
     * already in the section is an error and keeps its id.
     */
    method Add(section: string, userName: string, id: int) returns (r: Result<()>)
      modifies this
      ensures section in old(configFile) && userName in old(configFile)[section] ==>
        r == Err(AlreadyExistsIn(userName, section)) && configFile == old(configFile) &&
        writeRequests == old(writeRequests)
      ensures !(section in old(configFile) && userName in old(configFile)[section]) ==>
        r == Ok(()) && writeRequests == old(writeRequests) + 1 &&
        configFile == old(configFile)[section := EntryOrEmpty(old(configFile), section)[userName := id]]
    {
      var entry := EntryOrEmpty(configFile, section);
      configFile := configFile[section := entry];
      if userName in entry {
        r := Err(AlreadyExistsIn(userName, section));
        return;
      }
      configFile := configFile[section := entry[userName := id]];
      WriteChangesToFile();
      r := Ok(());
    }

    /**
     * Gives a user of the section a new name with the same id. The section
     * must exist, the new name must be free (so renaming to the same name
     * fails) and the old name present.
     */
    method Rename(oldUsername: string, newUsername: string, section: string) returns (r: Result<()>)
      modifies this
      ensures section !in old(configFile) ==>
        r == Err(NameNotFound(section)) && configFile == old(configFile) && writeRequests == old(writeRequests)
      ensures section in old(configFile) && newUsername in old(configFile)[section] ==>
        r == Err(AlreadyContains(section, newUsername)) && configFile == old(configFile) &&
        writeRequests == old(writeRequests)
      ensures (section in old(configFile) && newUsername !in old(configFile)[section] &&
               oldUsername !in old(configFile)[section]) ==>
        r == Err(NotFoundIn(oldUsername, section)) && configFile == old(configFile) &&
        writeRequests == old(writeRequests)
      ensures (section in old(configFile) && newUsername !in old(configFile)[section] &&
               oldUsername in old(configFile)[section]) ==>
        var entry := old(configFile)[section];
        r == Ok(()) && writeRequests == old(writeRequests) + 1 &&
        configFile == old(configFile)[section := (entry - {oldUsername})[newUsername := entry[oldUsername]]]
      ensures oldUsername == newUsername ==> r.Err?
    {
      if section !in configFile {
        r := Err(NameNotFound(section));
        return;
      }
      var entry := configFile[section];
      if newUsername in entry {
        r := Err(AlreadyContains(section, newUsername));
        return;
      }
      if oldUsername !in entry {
        r := Err(NotFoundIn(oldUsername, section));
        return;
      }
      var id := entry[oldUsername];
      entry := entry - {oldUsername};
      configFile := configFile[section := entry];
      entry := entry[newUsername := id];
      configFile := configFile[section := entry];
      WriteChangesToFile();
      r := Ok(());
    }

    /**
     * Moves a user, with its id, from one section to another. The source
     * section must exist; the destination is created before the remaining
     * checks, so it stays created when they fail. The user must be absent
     * from the destination and present in the source, so moving within one
     * section always fails.
     */
    method Move(oldSection: string, newSection: string, userName: string) returns (r: Result<()>)
      modifies this
      ensures oldSection !in old(configFile) ==>
        r == Err(NameNotFound(oldSection)) && configFile == old(configFile) && writeRequests == old(writeRequests)
      ensures oldSection in old(configFile) ==>
        var created := old(configFile)[newSection := EntryOrEmpty(old(configFile), newSection)];
        (userName in created[newSection] ==>
          r == Err(AlreadyContains(newSection, userName)) && configFile == created &&
          writeRequests == old(writeRequests)) &&
        (userName !in created[newSection] && userName !in created[oldSection] ==>
          r == Err(CouldNotBeMoved(userName, oldSection)) && configFile == created &&
          writeRequests == old(writeRequests)) &&
        (userName !in created[newSection] && userName in created[oldSection] ==>
          r == Ok(()) && writeRequests == old(writeRequests) + 1 &&
          configFile == created[oldSection := created[oldSection] - {userName}]
                               [newSection := created[newSection][userName := created[oldSection][userName]]])
      ensures oldSection == newSection ==> r.Err?
      ensures r.Ok? ==>
        oldSection in configFile && userName !in configFile[oldSection] &&
        newSection in configFile && userName in configFile[newSection] &&
        configFile[newSection][userName] == old(configFile)[oldSection][userName]
    {
      if oldSection !in configFile {
        r := Err(NameNotFound(oldSection));
        return;
      }
      var current := configFile[oldSection];
      var desired := EntryOrEmpty(configFile, newSection);
      configFile := configFile[newSection := desired];
      if userName in desired {
        r := Err(AlreadyContains(newSection, userName));
        return;
      }
      if userName !in current {
        r := Err(CouldNotBeMoved(userName, oldSection));
        return;
      }
      var id := current[userName];
      current := current - {userName};
      configFile := configFile[oldSection := current];
      desired := configFile[newSection];
      configFile := configFile[newSection := desired[userName := id]];
      WriteChangesToFile();
      r := Ok(());
    }

    /** Removes the section and all its entries; an unknown section is an error. */
    method DeleteSection(sectionName: string) returns (r: Result<()>)
      modifies this
      ensures sectionName !in old(configFile) ==>
        r == Err(CouldNotBeRemoved(sectionName)) && configFile == old(configFile) &&
        writeRequests == old(writeRequests)
      ensures sectionName in old(configFile) ==>
        r == Ok(()) && configFile == old(configFile) - {sectionName} && writeRequests == old(writeRequests) + 1
    {
      if sectionName !in configFile {
        r := Err(CouldNotBeRemoved(sectionName));
        return;
      }
      configFile := configFile - {sectionName};
      WriteChangesToFile();
      r := Ok(());
    }

    /** Removes one user from a section; the section and the user must exist. */
    method DeleteUsername(sectionName: string, userName: string) returns (r: Result<()>)
      modifies this
      ensures sectionName !in old(configFile) ==>
        r == Err(NameNotFound(sectionName)) && configFile == old(configFile) && writeRequests == old(writeRequests)
      ensures sectionName in old(configFile) && userName !in old(configFile)[sectionName] ==>
        r == Err(CouldNotBeRemovedFrom(userName, sectionName)) && configFile == old(configFile) &&
        writeRequests == old(writeRequests)
      ensures sectionName in old(configFile) && userName in old(configFile)[sectionName] ==>
        r == Ok(()) && writeRequests == old(writeRequests) + 1 &&
        configFile == old(configFile)[sectionName := old(configFile)[sectionName] - {userName}]
    {
      if sectionName !in configFile {
        r := Err(NameNotFound(sectionName));
        return;
      }
      var entry := configFile[sectionName];
      if userName !in entry {
        r := Err(CouldNotBeRemovedFrom(userName, sectionName));
        return;
      }
      configFile := configFile[sectionName := entry - {userName}];
      WriteChangesToFile();
      r := Ok(());
    }
  }
}
