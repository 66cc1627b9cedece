/**
 * Proved facts about concrete rows: a description whose role suffix is
 * followed by a line break, where deriving the base key twice does not give
 * the same key; and, for single devices of each kind, the document their
 * rows produce.
 */
module Scenarios {
  import opened Wrappers
  import opened Strings
  import opened Entries
  import opened Rules
  import opened Conversion

  // ---------------------------------------------------------------------
  // A suffix before a line break survives the first derivation
  // ---------------------------------------------------------------------

  /** ` sch.*$` cannot match across the trailing `\n`, so no role suffix is removed. */
  lemma RoleSuffixBeforeLineBreakKept()
    ensures ReplaceTail("Flur sch\n", RoleSuffixes) == "Flur sch\n"
  {
    var d := "Flur sch\n";
    assert IsLineTerminator(d[8..][0]);
    assert !TailMatchAt(d, RoleSuffixes, 4);
    SuffixesBeginWithSpace();
    ReplaceTailAt(d, RoleSuffixes, 9);
    assert d[..9] == d;
  }

  lemma NoDashBeforeLineBreak()
    ensures ReplaceTail("Flur sch\n", DashSuffix) == "Flur sch\n"
  {
    var d := "Flur sch\n";
    NoDashAt(d, 4);
    SuffixesBeginWithSpace();
    ReplaceTailAt(d, DashSuffix, 9);
    assert d[..9] == d;
  }

  /** `trim` then removes the line break and exposes the suffix. */
  lemma TrimRemovesLineBreak()
    ensures Trim("Flur sch\n") == "Flur sch"
  {
  }

  lemma RoleSuffixRemoved()
    ensures ReplaceTail("Flur sch", RoleSuffixes) == "Flur"
  {
    SchAt("Flur sch", 4);
    SuffixesBeginWithSpace();
    ReplaceTailAt("Flur sch", RoleSuffixes, 4);
  }

  lemma NoDash()
    ensures ReplaceTail("Flur", DashSuffix) == "Flur"
  {
    SuffixesBeginWithSpace();
    ReplaceTailAt("Flur", DashSuffix, 4);
  }

  /** The base key of "Flur sch\n" is "Flur sch", and the base key of that is "Flur". */
  lemma BaseKeyNotIdempotentAcrossLineBreak()
    ensures BaseKey("Flur sch\n") == "Flur sch"
    ensures BaseKey(BaseKey("Flur sch\n")) == "Flur"
  {
    RoleSuffixBeforeLineBreakKept();
    NoDashBeforeLineBreak();
    TrimRemovesLineBreak();
    RoleSuffixRemoved();
    NoDash();
    TrimTrimmed("Flur");
  }

  // ---------------------------------------------------------------------
  // From rows to the document, for one device
  // ---------------------------------------------------------------------

  /** Every suffix the base key derivation removes begins with a space. */
  lemma SuffixesBeginWithSpace()
    ensures forall n :: 0 <= n < |RoleSuffixes| ==> |RoleSuffixes[n]| > 0 && RoleSuffixes[n][0] == ' '
    ensures forall n :: 0 <= n < |DashSuffix| ==> |DashSuffix[n]| > 0 && DashSuffix[n][0] == ' '
  {
  }

  /** No role suffix starts at i when the character after it is not `s`, `R` or `w`. */
  lemma NoRoleAt(s: string, i: nat)
    requires i + 1 < |s| && s[i + 1] != 's' && s[i + 1] != 'R' && s[i + 1] != 'w'
    ensures !TailMatchAt(s, RoleSuffixes, i)
  {
    TailMatchFromIff(s, RoleSuffixes, i, 0);
    MismatchAt(s, RoleSuffixes[0], i, 1);
    MismatchAt(s, RoleSuffixes[1], i, 1);
    MismatchAt(s, RoleSuffixes[2], i, 1);
    MismatchAt(s, RoleSuffixes[3], i, 1);
  }

  /** ` - ` does not start at i when the character after it is not `-`. */
  lemma NoDashAt(s: string, i: nat)
    requires i + 1 < |s| && s[i + 1] != '-'
    ensures !TailMatchAt(s, DashSuffix, i)
  {
    TailMatchFromIff(s, DashSuffix, i, 0);
    MismatchAt(s, DashSuffix[0], i, 1);
  }

  /** ` sch` with no line terminator after it is a role suffix. */
  lemma SchAt(s: string, i: nat)
    requires i + 4 <= |s| && s[i] == ' ' && s[i + 1] == 's' && s[i + 2] == 'c' && s[i + 3] == 'h'
    requires NoLineTerminator(s[i + 4..])
    ensures TailMatchAt(s, RoleSuffixes, i)
  {
    OccursAtIff(s, RoleSuffixes[0], i);
    assert TailMatchOf(s, RoleSuffixes[0], i);
  }

  /** A closing ` RMsch` is a role suffix. */
  lemma RMschAtEnd(s: string, i: nat)
    requires i + 6 == |s| && s[i] == ' ' && s[i + 1] == 'R' && s[i + 2] == 'M'
    requires s[i + 3] == 's' && s[i + 4] == 'c' && s[i + 5] == 'h'
    ensures TailMatchAt(s, RoleSuffixes, i)
  {
    OccursAtIff(s, RoleSuffixes[1], i);
    assert TailMatchOf(s, RoleSuffixes[1], i);
  }

  /** A first row that is kept and assigns field f creates its key's accumulator with that field set. */
  lemma FirstRow(a: Row, key: string, f: Field)
    requires !IsIgnored(a.description) && BaseKey(a.description) == key && FieldFor(a) == Some(f)
    ensures Accumulate([a]) == Groups([key], map[key := NewEntry(key).Set(f, a.address)])
  {
    AccumulateSnoc([], a);
    assert [] + [a] == [a];
    StepAssigns(Groups([], map[]), a, key, f);
  }

  /** A later row with the same key updates the one accumulator. */
  lemma SameKeyRow(g: Groups, b: Row, key: string, e: YamlEntry, f: Field)
    requires !IsIgnored(b.description) && BaseKey(b.description) == key && FieldFor(b) == Some(f)
    requires g == Groups([key], map[key := e])
    ensures Step(g, b) == Groups([key], map[key := e.Set(f, b.address)])
  {
    StepAssigns(g, b, key, f);
  }

  /** A switch row and a status row with the same key make one accumulator holding both addresses. */
  lemma SwitchThenStatus(a: Row, b: Row, key: string)
    requires !IsIgnored(a.description) && BaseKey(a.description) == key && FieldFor(a) == Some(Address)
    requires !IsIgnored(b.description) && BaseKey(b.description) == key && FieldFor(b) == Some(StateAddress)
    ensures Accumulate([a, b]) ==
      Groups([key], map[key := NewEntry(key).Set(Address, a.address).Set(StateAddress, b.address)])
  {
    FirstRow(a, key, Address);
    AccumulateSnoc([a], b);
    assert [a] + [b] == [a, b];
    SameKeyRow(Accumulate([a]), b, key, NewEntry(key).Set(Address, a.address), StateAddress);
  }

  lemma SelectedOne(e: YamlEntry, c: Category)
    ensures Selected([e], c) == if Placement(e) == Some(c) then [e] else []
  {
    assert [e][..0] == [];
  }

  lemma ProjectOne(e: YamlEntry)
    ensures Devices([e]) == [ToDevice(e)] && Devices([]) == []
    ensures Climates([e]) == [ToClimate(e)] && Climates([]) == []
  {
  }

  /** With one accumulator, the document holds its projection in the list it is placed in, and nothing else. */
  lemma OneRecord(rows: seq<Row>, key: string, e: YamlEntry, c: Option<Category>)
    requires Accumulate(rows) == Groups([key], map[key := e])
    requires Placement(e) == c
    ensures Convert(rows) == KnxObject(
      if c == Some(Light) then [ToDevice(e)] else [],
      if c == Some(Fan) then [ToDevice(e)] else [],
      if c == Some(Switch) then [ToDevice(e)] else [],
      if c == Some(Climate) then [ToClimate(e)] else [])
  {
    assert Values(Accumulate(rows)) == [e];
    SelectedOne(e, Light);
    SelectedOne(e, Fan);
    SelectedOne(e, Switch);
    SelectedOne(e, Climate);
    ProjectOne(e);
  }

  // ---------------------------------------------------------------------
  // A switched light with status feedback
  // ---------------------------------------------------------------------

  const Switching := Row("Wohnzimmer licht sch", "1/1/1")
  const Feedback := Row("Wohnzimmer licht RMsch", "1/1/2")

  /** The record both rows merge into. */
  const WohnzimmerLight := YamlEntry("Wohnzimmer licht", Some("1/1/1"), Some("1/1/2"),
    None, None, None, None, None, None, None, None, None, None, None)

  lemma WohnzimmerSpaces()
    ensures forall j :: 0 <= j < 16 && "Wohnzimmer licht sch"[j] == ' ' ==> j == 10
    ensures forall j :: 0 <= j < 16 && "Wohnzimmer licht RMsch"[j] == ' ' ==> j == 10
    ensures forall j :: 0 <= j < 16 && "Wohnzimmer licht"[j] == ' ' ==> j == 10
  {
  }

  lemma WohnzimmerNoMatchAtTen()
    ensures !TailMatchAt("Wohnzimmer licht sch", RoleSuffixes, 10)
    ensures !TailMatchAt("Wohnzimmer licht RMsch", RoleSuffixes, 10)
    ensures !TailMatchAt("Wohnzimmer licht", DashSuffix, 10)
  {
    NoRoleAt("Wohnzimmer licht sch", 10);
    NoRoleAt("Wohnzimmer licht RMsch", 10);
    NoDashAt("Wohnzimmer licht", 10);
  }

  lemma WohnzimmerMatchAtSixteen()
    ensures TailMatchAt("Wohnzimmer licht sch", RoleSuffixes, 16)
    ensures TailMatchAt("Wohnzimmer licht RMsch", RoleSuffixes, 16)
  {
    SchAt("Wohnzimmer licht sch", 16);
    RMschAtEnd("Wohnzimmer licht RMsch", 16);
  }

  lemma SwitchingRoleRemoved()
    ensures ReplaceTail("Wohnzimmer licht sch", RoleSuffixes) == "Wohnzimmer licht"
  {
    SuffixesBeginWithSpace();
    WohnzimmerSpaces();
    WohnzimmerNoMatchAtTen();
    WohnzimmerMatchAtSixteen();
    ReplaceTailAt("Wohnzimmer licht sch", RoleSuffixes, 16);
  }

  lemma FeedbackRoleRemoved()
    ensures ReplaceTail("Wohnzimmer licht RMsch", RoleSuffixes) == "Wohnzimmer licht"
  {
    SuffixesBeginWithSpace();
    WohnzimmerSpaces();
    WohnzimmerNoMatchAtTen();
    WohnzimmerMatchAtSixteen();
    ReplaceTailAt("Wohnzimmer licht RMsch", RoleSuffixes, 16);
  }

  lemma WohnzimmerNoDash()
    ensures ReplaceTail("Wohnzimmer licht", DashSuffix) == "Wohnzimmer licht"
  {
    SuffixesBeginWithSpace();
    WohnzimmerSpaces();
    WohnzimmerNoMatchAtTen();
    ReplaceTailAt("Wohnzimmer licht", DashSuffix, 16);
  }

  /** Both rows have the base key "Wohnzimmer licht". */
  lemma WohnzimmerKey()
    ensures BaseKey(Switching.description) == "Wohnzimmer licht"
    ensures BaseKey(Feedback.description) == "Wohnzimmer licht"
  {
    SwitchingRoleRemoved();
    FeedbackRoleRemoved();
    WohnzimmerNoDash();
    TrimTrimmed("Wohnzimmer licht");
  }

  /** The switch row sets `address`, the feedback row sets `state_address`. */
  lemma WohnzimmerFields()
    ensures FieldFor(Switching) == Some(Address)
    ensures FieldFor(Feedback) == Some(StateAddress)
  {
    assert EndsWith(Switching.description, "sch");
    EndsWithHasWordEnding(Switching.description, "sch");
    SwitchAndValueRoles(Switching);
    assert EndsWith(Feedback.description, "RMsch");
    SwitchAndValueRoles(Feedback);
  }

  lemma NamesLicht()
    ensures ContainsIgnoringCase("Wohnzimmer licht", "licht")
  {
    assert OccursIgnoringCaseAt("Wohnzimmer licht", "licht", 11);
    ContainsIgnoringCaseAt("Wohnzimmer licht", "licht", 11);
  }

  /** "Wohnzimmer licht" has no `s`. */
  lemma NotASocket()
    ensures !ContainsIgnoringCase("Wohnzimmer licht", "steckdose")
  {
    FirstCharAbsent("Wohnzimmer licht", "steckdose");
  }

  /** The merged record is a light: it has an address and its name says `licht` and not `steckdose`. */
  lemma WohnzimmerIsLight()
    ensures Placement(WohnzimmerLight) == Some(Light)
  {
    NamesLicht();
    NotASocket();
  }

  /**
   * A switch row and a status row of the same light give one light with both
   * addresses, and nothing else.
   */
  lemma WohnzimmerExample()
    ensures Convert([Switching, Feedback]) == KnxObject(
      [DeviceRecord("Wohnzimmer licht", Some("1/1/1"), Some("1/1/2"), None, None)], [], [], [])
  {
    assert !IsIgnored(Switching.description) && !IsIgnored(Feedback.description);
    WohnzimmerKey();
    WohnzimmerFields();
    SwitchThenStatus(Switching, Feedback, "Wohnzimmer licht");
    assert NewEntry("Wohnzimmer licht").Set(Address, "1/1/1").Set(StateAddress, "1/1/2") == WohnzimmerLight;
    WohnzimmerIsLight();
    OneRecord([Switching, Feedback], "Wohnzimmer licht", WohnzimmerLight, Some(Light));
  }

  // ---------------------------------------------------------------------
  // A socket: a switch without a light word
  // ---------------------------------------------------------------------

  const Socket := Row("Kueche Steckdose sch", "1/2/1")

  lemma SocketSpaces()
    ensures forall j :: 0 <= j < 16 && "Kueche Steckdose sch"[j] == ' ' ==> j == 6
    ensures forall j :: 0 <= j < 16 && "Kueche Steckdose"[j] == ' ' ==> j == 6
  {
  }

  lemma SocketMatches()
    ensures !TailMatchAt("Kueche Steckdose sch", RoleSuffixes, 6)
    ensures TailMatchAt("Kueche Steckdose sch", RoleSuffixes, 16)
    ensures !TailMatchAt("Kueche Steckdose", DashSuffix, 6)
  {
    NoRoleAt("Kueche Steckdose sch", 6);
    SchAt("Kueche Steckdose sch", 16);
    NoDashAt("Kueche Steckdose", 6);
  }

  lemma SocketRoleRemoved()
    ensures ReplaceTail("Kueche Steckdose sch", RoleSuffixes) == "Kueche Steckdose"
  {
    SuffixesBeginWithSpace();
    SocketSpaces();
    SocketMatches();
    ReplaceTailAt("Kueche Steckdose sch", RoleSuffixes, 16);
  }

  lemma SocketNoDash()
    ensures ReplaceTail("Kueche Steckdose", DashSuffix) == "Kueche Steckdose"
  {
    SuffixesBeginWithSpace();
    SocketSpaces();
    SocketMatches();
    ReplaceTailAt("Kueche Steckdose", DashSuffix, 16);
  }

  lemma SocketKey()
    ensures BaseKey(Socket.description) == "Kueche Steckdose"
  {
    SocketRoleRemoved();
    SocketNoDash();
    TrimTrimmed("Kueche Steckdose");
  }

  lemma SocketField()
    ensures FieldFor(Socket) == Some(Address)
  {
    assert EndsWith(Socket.description, "sch");
    EndsWithHasWordEnding(Socket.description, "sch");
    SwitchAndValueRoles(Socket);
  }

  /** "Kueche Steckdose" has no `b` and no `l`, so it names no light and no fan. */
  lemma SocketNoB()
    ensures !ContainsIgnoringCase("Kueche Steckdose", "Beleuchtung")
  {
    FirstCharAbsent("Kueche Steckdose", "Beleuchtung");
  }

  lemma SocketNoL()
    ensures !ContainsIgnoringCase("Kueche Steckdose", "licht")
    ensures !ContainsIgnoringCase("Kueche Steckdose", "luefter")
  {
    FirstCharAbsent("Kueche Steckdose", "licht");
    FirstCharAbsent("Kueche Steckdose", "luefter");
  }

  lemma SocketSaysSteckdose()
    ensures ContainsIgnoringCase("Kueche Steckdose", "steckdose")
  {
    assert OccursIgnoringCaseAt("Kueche Steckdose", "steckdose", 7);
    ContainsIgnoringCaseAt("Kueche Steckdose", "steckdose", 7);
  }

  /** A socket row with no light word in its name gives one switch. */
  lemma SocketExample()
    ensures Convert([Socket]) == KnxObject([], [], [DeviceRecord("Kueche Steckdose", Some("1/2/1"), None, None, None)], [])
  {
    assert !IsIgnored(Socket.description);
    SocketKey();
    SocketField();
    FirstRow(Socket, "Kueche Steckdose", Address);
    var e := NewEntry("Kueche Steckdose").Set(Address, "1/2/1");
    SocketNoB();
    SocketNoL();
    SocketSaysSteckdose();
    assert Placement(e) == Some(Switch);
    OneRecord([Socket], "Kueche Steckdose", e, Some(Switch));
  }

  // ---------------------------------------------------------------------
  // A socket named as a light: dropped
  // ---------------------------------------------------------------------

  const LightSocket := Row("Buero licht Steckdose sch", "1/3/1")

  lemma LightSocketSpaces()
    ensures forall j :: 0 <= j < 21 && "Buero licht Steckdose sch"[j] == ' ' ==> j == 5 || j == 11
    ensures forall j :: 0 <= j < 21 && "Buero licht Steckdose"[j] == ' ' ==> j == 5 || j == 11
  {
  }

  lemma LightSocketRoleMatches()
    ensures !TailMatchAt("Buero licht Steckdose sch", RoleSuffixes, 5)
    ensures !TailMatchAt("Buero licht Steckdose sch", RoleSuffixes, 11)
    ensures TailMatchAt("Buero licht Steckdose sch", RoleSuffixes, 21)
  {
    NoRoleAt("Buero licht Steckdose sch", 5);
    NoRoleAt("Buero licht Steckdose sch", 11);
    SchAt("Buero licht Steckdose sch", 21);
  }

  lemma LightSocketDashMatches()
    ensures !TailMatchAt("Buero licht Steckdose", DashSuffix, 5)
    ensures !TailMatchAt("Buero licht Steckdose", DashSuffix, 11)
  {
    NoDashAt("Buero licht Steckdose", 5);
    NoDashAt("Buero licht Steckdose", 11);
  }

  lemma LightSocketRoleRemoved()
    ensures ReplaceTail("Buero licht Steckdose sch", RoleSuffixes) == "Buero licht Steckdose"
  {
    SuffixesBeginWithSpace();
    LightSocketSpaces();
    LightSocketRoleMatches();
    ReplaceTailAt("Buero licht Steckdose sch", RoleSuffixes, 21);
  }

  lemma LightSocketNoDash()
    ensures ReplaceTail("Buero licht Steckdose", DashSuffix) == "Buero licht Steckdose"
  {
    SuffixesBeginWithSpace();
    LightSocketSpaces();
    LightSocketDashMatches();
    ReplaceTailAt("Buero licht Steckdose", DashSuffix, 21);
  }

  lemma LightSocketKey()
    ensures BaseKey(LightSocket.description) == "Buero licht Steckdose"
  {
    LightSocketRoleRemoved();
    LightSocketNoDash();
    TrimTrimmed("Buero licht Steckdose");
  }

  lemma LightSocketField()
    ensures FieldFor(LightSocket) == Some(Address)
  {
    assert EndsWith(LightSocket.description, "sch");
    EndsWithHasWordEnding(LightSocket.description, "sch");
    SwitchAndValueRoles(LightSocket);
  }

  lemma LightSocketSaysLicht()
    ensures ContainsIgnoringCase("Buero licht Steckdose", "licht")
  {
    var name := "Buero licht Steckdose";
    assert OccursIgnoringCaseAt(name, "licht", 6);
    ContainsIgnoringCaseAt(name, "licht", 6);
  }

  lemma LightSocketSaysSteckdose()
    ensures ContainsIgnoringCase("Buero licht Steckdose", "steckdose")
  {
    var name := "Buero licht Steckdose";
    assert OccursIgnoringCaseAt(name, "steckdose", 12);
    ContainsIgnoringCaseAt(name, "steckdose", 12);
  }

  /** A row whose name says both `licht` and `Steckdose` leaves the document empty. */
  lemma LightSocketExample()
    ensures Convert([LightSocket]) == KnxObject([], [], [], [])
  {
    assert !IsIgnored(LightSocket.description);
    LightSocketKey();
    LightSocketField();
    FirstRow(LightSocket, "Buero licht Steckdose", Address);
    var e := NewEntry("Buero licht Steckdose").Set(Address, "1/3/1");
    LightSocketSaysLicht();
    LightSocketSaysSteckdose();
    assert Placement(e) == None;
    OneRecord([LightSocket], "Buero licht Steckdose", e, None);
  }

  // ---------------------------------------------------------------------
  // A heating sensor: climate from the temperature address alone
  // ---------------------------------------------------------------------

  const TemperaturePhrase := "Temperaturwert empfangen"

  /** "Heizung Temperaturwert empfangen", written as its two parts. */
  const SensorName := "Heizung " + TemperaturePhrase

  const Sensor := Row(SensorName, "5/1/1")

  lemma SensorSpaces()
    ensures forall j :: 0 <= j < |SensorName| && SensorName[j] == ' ' ==> j == 7 || j == 22
  {
  }

  /**
   * Neither space starts a suffix: ` Temperaturwert` is not a role suffix, and
   * `wert` has no space before it.
   */
  lemma SensorNoMatch()
    ensures !TailMatchAt(SensorName, RoleSuffixes, 7) && !TailMatchAt(SensorName, RoleSuffixes, 22)
    ensures !TailMatchAt(SensorName, DashSuffix, 7) && !TailMatchAt(SensorName, DashSuffix, 22)
  {
    NoRoleAt(SensorName, 7);
    NoRoleAt(SensorName, 22);
    NoDashAt(SensorName, 7);
    NoDashAt(SensorName, 22);
  }

  lemma SensorRolesKept()
    ensures ReplaceTail(SensorName, RoleSuffixes) == SensorName
  {
    SuffixesBeginWithSpace();
    SensorSpaces();
    SensorNoMatch();
    ReplaceTailAt(SensorName, RoleSuffixes, 32);
    assert SensorName[..32] == SensorName;
  }

  lemma SensorDashKept()
    ensures ReplaceTail(SensorName, DashSuffix) == SensorName
  {
    SuffixesBeginWithSpace();
    SensorSpaces();
    SensorNoMatch();
    ReplaceTailAt(SensorName, DashSuffix, 32);
    assert SensorName[..32] == SensorName;
  }

  lemma SensorKey()
    ensures BaseKey(SensorName) == SensorName
  {
    SensorRolesKept();
    SensorDashKept();
    TrimTrimmed(SensorName);
  }

  /** In main group 5 the temperature suffix is tested first. */
  lemma TemperatureRow(row: Row)
    requires StartsWith(row.address, "5/") && EndsWith(row.description, TemperaturePhrase)
    ensures FieldFor(row) == Some(TemperatureAddress)
  {
  }

  lemma SensorTemperature()
    ensures StartsWith(Sensor.address, "5/") && EndsWith(Sensor.description, TemperaturePhrase)
  {
    EndsWithAppend("Heizung ", TemperaturePhrase);
  }

  lemma SensorField()
    ensures FieldFor(Sensor) == Some(TemperatureAddress)
  {
    SensorTemperature();
    TemperatureRow(Sensor);
  }

  /** "Heizung Temperaturwert empfangen" has no `b`, `l` or `s`, so no name rule applies. */
  lemma SensorNoB()
    ensures !ContainsIgnoringCase(SensorName, "Beleuchtung")
  {
    FirstCharAbsent(SensorName, "Beleuchtung");
  }

  lemma SensorNoLicht()
    ensures !ContainsIgnoringCase(SensorName, "licht")
  {
    FirstCharAbsent(SensorName, "licht");
  }

  lemma SensorNoLuefter()
    ensures !ContainsIgnoringCase(SensorName, "luefter")
  {
    FirstCharAbsent(SensorName, "luefter");
  }

  lemma SensorNoSteckdose()
    ensures !ContainsIgnoringCase(SensorName, "steckdose")
  {
    FirstCharAbsent(SensorName, "steckdose");
  }

  /** The record the sensor row creates. */
  const SensorEntry := YamlEntry(SensorName, None, None, None, None, Some("5/1/1"),
    None, None, None, None, None, None, None, None)

  lemma SensorEntryCreated()
    ensures NewEntry(SensorName).Set(TemperatureAddress, "5/1/1") == SensorEntry
  {
  }

  lemma SensorNamesNoLight()
    ensures !NamesLight(SensorEntry.name)
  {
    SensorNoB();
    SensorNoLicht();
  }

  lemma SensorNamesNoDevice()
    ensures !ContainsIgnoringCase(SensorEntry.name, "luefter") && !ContainsIgnoringCase(SensorEntry.name, "steckdose")
  {
    SensorNoLuefter();
    SensorNoSteckdose();
  }

  lemma SensorInGroupFive()
    ensures StartsWith(SensorEntry.temperatureAddress.value, "5/")
  {
  }

  /** The sensor's record is climate: a temperature address in main group 5 and no name rule. */
  lemma SensorIsClimate()
    ensures Placement(SensorEntry) == Some(Climate)
  {
    SensorNamesNoLight();
    SensorNamesNoDevice();
    SensorInGroupFive();
    assert CategoryOf(SensorEntry) == Some(Climate);
  }

  /** A temperature row alone, with no `address` ever set, gives one climate record. */
  lemma SensorExample()
    ensures Convert([Sensor]) == KnxObject([], [], [], [ClimateRecord(SensorName,
      Some("5/1/1"), None, None, None, None, None, None, None, None)])
  {
    var key := SensorName;
    assert !IsIgnored(Sensor.description);
    SensorKey();
    SensorField();
    FirstRow(Sensor, key, TemperatureAddress);
    SensorEntryCreated();
    SensorIsClimate();
    OneRecord([Sensor], key, SensorEntry, Some(Climate));
  }

  // ---------------------------------------------------------------------
  // A frost protection row: ` schalten` is cut
  // ---------------------------------------------------------------------

  const FrostKey := "Bad Betriebsart Frostschutz"

  lemma FrostSpaces()
    ensures forall j :: 0 <= j < |FrostKey| && FrostKey[j] == ' ' ==> j == 3 || j == 15
  {
  }

  /** ` schalten` begins with ` sch`, so the role rule cuts there; `Frostschutz` has no space before `sch`. */
  lemma FrostRoleRemoved()
    ensures ReplaceTail(FrostKey + " schalten", RoleSuffixes) == FrostKey
  {
    var d := FrostKey + " schalten";
    FrostSpaces();
    NoRoleAt(d, 3);
    NoRoleAt(d, 15);
    SchAt(d, 27);
    SuffixesBeginWithSpace();
    ReplaceTailAt(d, RoleSuffixes, 27);
    assert d[..27] == FrostKey;
  }

  lemma FrostNoDash()
    ensures ReplaceTail(FrostKey, DashSuffix) == FrostKey
  {
    FrostSpaces();
    NoDashAt(FrostKey, 3);
    NoDashAt(FrostKey, 15);
    SuffixesBeginWithSpace();
    ReplaceTailAt(FrostKey, DashSuffix, 27);
    assert FrostKey[..27] == FrostKey;
  }

  /** Unlike the temperature row, a frost protection row loses its last word. */
  lemma FrostKeyExample()
    ensures BaseKey("Bad Betriebsart Frostschutz schalten") == "Bad Betriebsart Frostschutz"
  {
    assert "Bad Betriebsart Frostschutz schalten" == FrostKey + " schalten";
    FrostRoleRemoved();
    FrostNoDash();
    TrimTrimmed(FrostKey);
  }

  // ---------------------------------------------------------------------
  // A dimming row: ignored
  // ---------------------------------------------------------------------

  /** A row ending in `dim` leaves the document empty. */
  lemma DimmingExample()
    ensures Convert([Row("Flur dim", "1/1/3")]) == KnxObject([], [], [], [])
  {
    var r := Row("Flur dim", "1/1/3");
    assert IsIgnored(r.description);
    AccumulateSnoc([], r);
    assert [] + [r] == [r];
    assert Values(Accumulate([r])) == [];
  }
}
