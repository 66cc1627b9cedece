/**
 * The fixed rules of `convertToYaml`: which rows are ignored, how a row's
 * description becomes the grouping key, which field a row assigns, and which
 * output list an accumulated record goes to.
 */
module Rules {
  import opened Wrappers
  import opened Strings
  import opened Entries

  // ---------------------------------------------------------------------
  // Ignore filter
  // ---------------------------------------------------------------------

  /** Rows whose description ends in `dim`, `---` or `-` are skipped. */
  predicate IsIgnored(description: string)
  {
    EndsWith(description, "dim") || EndsWith(description, "---") || EndsWith(description, "-")
  }

  /** The `---` test is subsumed by the `-` test. */
  lemma IgnoredIff(description: string)
    ensures IsIgnored(description) <==> EndsWith(description, "dim") || EndsWith(description, "-")
  {
    if EndsWith(description, "---") {
      EndsWithSuffix(description, "---", "-");
    }
  }

  // ---------------------------------------------------------------------
  // Base key
  // ---------------------------------------------------------------------

  /** The alternatives of the first replacement, ` sch.*$| RMsch.*$| wert.*$| RMwert.*$`. */
  const RoleSuffixes: seq<string> := [" sch", " RMsch", " wert", " RMwert"]

  /** The second replacement, ` - .*$`. */
  const DashSuffix: seq<string> := [" - "]

  /** Cut at the leftmost role suffix, then at the first ` - `, then trim. */
  function BaseKey(description: string): (key: string)
    ensures |key| <= |description|
  {
    Trim(ReplaceTail(ReplaceTail(description, RoleSuffixes), DashSuffix))
  }

  /** The key has no leading or trailing whitespace. */
  lemma BaseKeyIsTrimmed(description: string)
    ensures IsTrimmed(BaseKey(description))
  {
    TrimSpec(ReplaceTail(ReplaceTail(description, RoleSuffixes), DashSuffix));
  }

  /** Without line terminators an alternation of non-empty alternatives matches exactly where one of them occurs. */
  lemma TailMatchWithoutLineTerminator(s: string, alts: seq<string>, i: nat)
    requires NoLineTerminator(s)
    ensures TailMatchAt(s, alts, i) <==> exists n :: 0 <= n < |alts| && OccursAt(s, alts[n], i)
  {
    TailMatchFromIff(s, alts, i, 0);
    if exists n :: 0 <= n < |alts| && OccursAt(s, alts[n], i) {
      var n :| 0 <= n < |alts| && OccursAt(s, alts[n], i);
      assert TailMatchOf(s, alts[n], i);
    }
  }

  /** Cutting a line-terminator-free string at its first match leaves no occurrence of any alternative. */
  lemma ReplaceTailLeavesNoOccurrence(s: string, alts: seq<string>)
    requires NoLineTerminator(s)
    requires forall n :: 0 <= n < |alts| ==> alts[n] != []
    ensures forall n, i :: 0 <= n < |alts| ==> !OccursAt(ReplaceTail(s, alts), alts[n], i)
  {
    var r := ReplaceTail(s, alts);
    ReplaceTailSpec(s, alts);
    forall n, i | 0 <= n < |alts| ensures !OccursAt(r, alts[n], i) {
      if OccursAt(r, alts[n], i) {
        OccursAtInfix(s, 0, |r|, alts[n], i);
        assert r == s[0..|r|];
        TailMatchWithoutLineTerminator(s, alts, i);
        assert false;
      }
    }
  }

  /** A string with no occurrence of any alternative is left unchanged by the replacement. */
  lemma ReplaceTailNoOccurrence(s: string, alts: seq<string>)
    requires NoLineTerminator(s)
    requires forall n, i :: 0 <= n < |alts| ==> !OccursAt(s, alts[n], i)
    ensures ReplaceTail(s, alts) == s
  {
    var r := ReplaceTail(s, alts);
    ReplaceTailSpec(s, alts);
    if |r| < |s| {
      TailMatchWithoutLineTerminator(s, alts, |r|);
    }
  }

  /** No occurrence in s means no occurrence in any substring of s. */
  lemma NoOccurrenceInfix(s: string, lo: nat, hi: nat, p: string)
    requires lo <= hi <= |s|
    requires forall i :: !OccursAt(s, p, i)
    ensures forall i :: !OccursAt(s[lo..hi], p, i)
  {
    forall i ensures !OccursAt(s[lo..hi], p, i) {
      OccursAtInfix(s, lo, hi, p, i);
    }
  }

  /**
   * For a description without line terminators the key contains none of
   * ` sch`, ` RMsch`, ` wert`, ` RMwert`, ` - `.
   */
  lemma {:induction false} BaseKeyHasNoSuffix(description: string)
    requires NoLineTerminator(description)
    ensures forall alt, i :: alt in RoleSuffixes + DashSuffix ==> !OccursAt(BaseKey(description), alt, i)
  {
    var s1 := ReplaceTail(description, RoleSuffixes);
    var s2 := ReplaceTail(s1, DashSuffix);
    var key := Trim(s2);
    var a := LeadingWhitespace(s2);
    ReplaceTailSpec(description, RoleSuffixes);
    ReplaceTailSpec(s1, DashSuffix);
    TrimSpec(s2);
    assert s1 == description[0..|s1|];
    assert s2 == s1[0..|s2|];
    assert key == s2[a..a + |key|];
    ReplaceTailLeavesNoOccurrence(description, RoleSuffixes);
    ReplaceTailLeavesNoOccurrence(s1, DashSuffix);
    forall alt | alt in RoleSuffixes + DashSuffix ensures forall i :: !OccursAt(key, alt, i) {
      if alt in RoleSuffixes {
        var n :| 0 <= n < |RoleSuffixes| && RoleSuffixes[n] == alt;
        NoOccurrenceInfix(s1, 0, |s2|, alt);
      } else {
        assert alt == DashSuffix[0];
      }
      NoOccurrenceInfix(s2, a, a + |key|, alt);
    }
  }

  /** For a description without line terminators, deriving the key again gives the same key. */
  lemma {:induction false} BaseKeyIdempotent(description: string)
    requires NoLineTerminator(description)
    ensures BaseKey(BaseKey(description)) == BaseKey(description)
  {
    var key := BaseKey(description);
    var s2 := ReplaceTail(ReplaceTail(description, RoleSuffixes), DashSuffix);
    var a := LeadingWhitespace(s2);
    TrimSpec(s2);
    ReplaceTailSpec(description, RoleSuffixes);
    ReplaceTailSpec(ReplaceTail(description, RoleSuffixes), DashSuffix);
    var s1 := ReplaceTail(description, RoleSuffixes);
    assert s1 == description[..|s1|];
    assert s2 == s1[..|s2|];
    assert key == s2[a..a + |key|];
    forall k | 0 <= k < |key| ensures !IsLineTerminator(key[k]) {
      assert key[k] == description[a + k];
    }
    BaseKeyHasNoSuffix(description);
    forall n, i | 0 <= n < |RoleSuffixes| ensures !OccursAt(key, RoleSuffixes[n], i) {
      assert RoleSuffixes[n] in RoleSuffixes + DashSuffix;
    }
    ReplaceTailNoOccurrence(key, RoleSuffixes);
    forall n, i | 0 <= n < |DashSuffix| ensures !OccursAt(key, DashSuffix[n], i) {
      assert DashSuffix[n] in RoleSuffixes + DashSuffix;
    }
    ReplaceTailNoOccurrence(key, DashSuffix);
    BaseKeyIsTrimmed(description);
    TrimTrimmed(key);
  }

  // ---------------------------------------------------------------------
  // Field assignment
  // ---------------------------------------------------------------------

  /**
   * The field a row assigns, decided by the priority chain: climate suffixes
   * for addresses in main group 5, otherwise a `sch` word ending (status when
   * it ends in `RMsch`), otherwise a `wert` word ending (status when it ends
   * in `RMwert`); None when no branch applies.
   */
  function FieldFor(row: Row): (f: Option<Field>)
    ensures f != Some(OperationModeAddress)
    ensures f.Some? ==> (f.value.IsClimate() <==> StartsWith(row.address, "5/"))
  {
    var d := row.description;
    if StartsWith(row.address, "5/") then
      if EndsWith(d, "Temperaturwert empfangen") then Some(TemperatureAddress)
      else if EndsWith(d, "Sollwert vorgeben") then Some(SetpointShiftAddress)
      else if EndsWith(d, "Status Sollwertverschiebung") then Some(SetpointShiftStateAddress)
      else if EndsWith(d, "Aktueller Sollwert senden") then Some(TargetTemperatureStateAddress)
      else if EndsWith(d, "Betriebsartvorwahl") then Some(OperationModeStateAddress)
      else if EndsWith(d, "Betriebsart Frostschutz schalten") then Some(OperationModeFrostProtectionAddress)
      else if EndsWith(d, "Betriebsart Nacht schalten") then Some(OperationModeNightAddress)
      else if EndsWith(d, "Betriebsart Komfort schalten") then Some(OperationModeComfortAddress)
      else None
    else if HasWordEnding(d, "sch") then
      if EndsWith(d, "RMsch") then Some(StateAddress) else Some(Address)
    else if HasWordEnding(d, "wert") then
      if EndsWith(d, "RMwert") then Some(BrightnessStateAddress) else Some(BrightnessAddress)
    else None
  }

  /**
   * Outside main group 5: a status-switch row is exactly one ending in
   * `RMsch`; a switch row has a `sch` word ending and no `RMsch`; the value
   * roles are reached only without a `sch` word ending.
   */
  lemma {:induction false} SwitchAndValueRoles(row: Row)
    requires !StartsWith(row.address, "5/")
    ensures FieldFor(row) == Some(StateAddress) <==> EndsWith(row.description, "RMsch")
    ensures FieldFor(row) == Some(Address) <==>
      HasWordEnding(row.description, "sch") && !EndsWith(row.description, "RMsch")
    ensures FieldFor(row) == Some(BrightnessStateAddress) <==>
      !HasWordEnding(row.description, "sch") && EndsWith(row.description, "RMwert")
    ensures FieldFor(row) == Some(BrightnessAddress) <==>
      !HasWordEnding(row.description, "sch") && HasWordEnding(row.description, "wert") &&
      !EndsWith(row.description, "RMwert")
    ensures FieldFor(row) == None <==>
      !HasWordEnding(row.description, "sch") && !HasWordEnding(row.description, "wert")
  {
    var d := row.description;
    if EndsWith(d, "RMsch") {
      EndsWithSuffix(d, "RMsch", "sch");
      EndsWithHasWordEnding(d, "sch");
    }
    if EndsWith(d, "RMwert") {
      EndsWithSuffix(d, "RMwert", "wert");
      EndsWithHasWordEnding(d, "wert");
    }
  }

  // ---------------------------------------------------------------------
  // Completeness filter and category chain
  // ---------------------------------------------------------------------

  datatype Category = Light | Fan | Switch | Climate

  /** A JavaScript truthy string: present and not empty. */
  predicate IsTruthy(o: Option<string>)
  {
    o.Some? && o.value != ""
  }

  /** The completeness filter keeps entries with a truthy `address` or `temperature_address`. */
  predicate HasChannel(e: YamlEntry)
  {
    IsTruthy(e.address) || IsTruthy(e.temperatureAddress)
  }

  /** The name matches `/Beleuchtung/i` or `/licht/i`. */
  predicate NamesLight(name: string)
  {
    ContainsIgnoringCase(name, "Beleuchtung") || ContainsIgnoringCase(name, "licht")
  }

  /**
   * The category chain on the name (and, last, the temperature address).
   * A light-named socket is dropped, not moved to the switches; a climate
   * record always has a temperature address in main group 5; only names
   * free of the light words reach the later rules, and only names free of
   * `luefter` get past the fan rule.
   */
  function CategoryOf(e: YamlEntry): (c: Option<Category>)
    ensures NamesLight(e.name) ==> c == (if ContainsIgnoringCase(e.name, "steckdose") then None else Some(Light))
    ensures c == Some(Fan) <==> !NamesLight(e.name) && ContainsIgnoringCase(e.name, "luefter")
    ensures c == Some(Switch) ==>
      ContainsIgnoringCase(e.name, "steckdose") && !NamesLight(e.name) && !ContainsIgnoringCase(e.name, "luefter")
    ensures c == Some(Climate) ==> e.temperatureAddress.Some? && StartsWith(e.temperatureAddress.value, "5/")
    ensures c == Some(Climate) ==> !ContainsIgnoringCase(e.name, "luefter") && !ContainsIgnoringCase(e.name, "steckdose")
    ensures c.Some? && c != Some(Light) ==> !NamesLight(e.name)
  {
    if NamesLight(e.name) then
      if !ContainsIgnoringCase(e.name, "steckdose") then Some(Light) else None
    else if ContainsIgnoringCase(e.name, "luefter") then Some(Fan)
    else if ContainsIgnoringCase(e.name, "steckdose") then Some(Switch)
    else if e.temperatureAddress.Some? && StartsWith(e.temperatureAddress.value, "5/") then Some(Climate)
    else None
  }

  /** The list an accumulated entry is pushed to, if any: the completeness filter, then the category chain. */
  function Placement(e: YamlEntry): (c: Option<Category>)
    ensures c.Some? ==> HasChannel(e) && c == CategoryOf(e)
    ensures HasChannel(e) ==> c == CategoryOf(e)
  {
    if !HasChannel(e) then None else CategoryOf(e)
  }
}
