/**
 The timing parameters of the dynamic configuration. Whatever is written to the DCS or to the configuration
 file, the values in effect leave the leader enough time: loop_wait + 2 * retry_timeout <= ttl.
 */
module TimingRule {
  import opened Names
  import opened Options
  import Numerals

  /**
   A configuration value: how it prints, what `int` makes of it (nothing when `int` raises), and whether it
   can be processed when a section is expected in its place.
   */
  datatype Value = Value(text: string, number: Option<int>, section: bool)

  datatype Key = LoopWait | RetryTimeout | Ttl | Postgresql | StandbyCluster | Other(name: string)

  type Configuration = map<Key, Value>

  predicate Timing(name: Key) { name == LoopWait || name == RetryTimeout || name == Ttl }

  function Default(name: Key): int { if name == Ttl then 30 else 10 }

  function Minimum(name: Key): int { if name == LoopWait then 1 else if name == RetryTimeout then 3 else 20 }

  /** The value as it appears after an adjustment has stored the integer. */
  function Whole(n: int): Value { Value(Numerals.Print(n), Some(n), false) }

  /** What `int(config.get(name, default))` gives. */
  function Reading(c: Configuration, name: Key): Option<int> {
    if name in c then c[name].number else Some(Default(name))
  }

  predicate Readable(c: Configuration) {
    Reading(c, LoopWait).Some? && Reading(c, RetryTimeout).Some? && Reading(c, Ttl).Some?
  }

  /** The rule for the values that are read from a configuration. */
  predicate Follows(c: Configuration) {
    && Readable(c)
    && Rule(Reading(c, LoopWait).value, Reading(c, RetryTimeout).value, Reading(c, Ttl).value)
  }

  predicate Rule(loopWait: int, retryTimeout: int, ttl: int) {
    loopWait >= 1 && retryTimeout >= 3 && ttl >= 20 && loopWait + 2 * retryTimeout <= ttl
  }

  // ---------- adjusting ----------

  /** Raises a readable value to its minimum. */
  function Lifted(c: Configuration, name: Key): Configuration {
    var v := Reading(c, name);
    if v.Some? && v.value < Minimum(name) then c[name := Whole(Minimum(name))] else c
  }

  /** The three values are raised to their minima in turn, up to the first one that cannot be read. */
  function AllLifted(c: Configuration): Configuration {
    var c1 := Lifted(c, LoopWait);
    if Reading(c1, LoopWait).None? then c1
    else
      var c2 := Lifted(c1, RetryTimeout);
      if Reading(c2, RetryTimeout).None? then c2 else Lifted(c2, Ttl)
  }

  /** The configuration left behind by `_validate_and_adjust_timeouts`, which raises if it is not readable. */
  function Adjusted(c: Configuration): Configuration {
    var d := AllLifted(c);
    if !Readable(d) then d
    else
      var loopWait, retryTimeout, ttl :=
        Reading(d, LoopWait).value, Reading(d, RetryTimeout).value, Reading(d, Ttl).value;
      if 1 + 2 * retryTimeout > ttl then d[LoopWait := Whole(1)][RetryTimeout := Whole((ttl - 1) / 2)]
      else if loopWait + 2 * retryTimeout > ttl then d[LoopWait := Whole(ttl - 2 * retryTimeout)]
      else d
  }

  lemma LiftedValue(c: Configuration, name: Key)
    ensures var v := Reading(Lifted(c, name), name);
            (v.Some? <==> Reading(c, name).Some?) && (v.Some? ==> v.value == Max(Minimum(name), Reading(c, name).value))
    ensures forall other | other != name :: Reading(Lifted(c, name), other) == Reading(c, other)
    ensures forall other | other != name :: other in Lifted(c, name) <==> other in c
    ensures forall other | other in c && other != name :: Lifted(c, name)[other] == c[other]
  {
    hide Numerals.Print, Default;
  }

  lemma AllLiftedValues(c: Configuration)
    ensures Readable(AllLifted(c)) <==> Readable(c)
    ensures Readable(c) ==> forall name | Timing(name) ::
      var v := Reading(AllLifted(c), name);
      v.Some? && v.value == Max(Minimum(name), Reading(c, name).value)
    ensures forall name :: !Timing(name) ==> (name in AllLifted(c) <==> name in c)
    ensures forall name | name in c && !Timing(name) :: AllLifted(c)[name] == c[name]
  {
    hide Lifted, Reading, Minimum, Default;
    LiftedValue(c, LoopWait);
    var c1 := Lifted(c, LoopWait);
    LiftedValue(c1, RetryTimeout);
    LiftedValue(Lifted(c1, RetryTimeout), Ttl);
  }

  /**
   What adjusting does to readable values: ttl is only ever raised to its minimum, and of the other two
   retry_timeout is cut only when loop_wait at its minimum is not enough.
   */
  lemma AdjustedValues(c: Configuration)
    requires Readable(c)
    ensures Follows(Adjusted(c))
    ensures forall name :: !Timing(name) ==> (name in Adjusted(c) <==> name in c)
    ensures forall name | name in c && !Timing(name) :: Adjusted(c)[name] == c[name]
    ensures var (l, r, t) := (Reading(c, LoopWait).value, Reading(c, RetryTimeout).value, Reading(c, Ttl).value);
            var d := Adjusted(c);
            var (loopWait, retryTimeout, ttl) :=
              (Reading(d, LoopWait).value, Reading(d, RetryTimeout).value, Reading(d, Ttl).value);
            && ttl == Max(20, t)
            && retryTimeout == Min(Max(3, r), (ttl - 1) / 2)
            && loopWait == if 1 + 2 * Max(3, r) > ttl then 1 else Min(Max(1, l), ttl - 2 * retryTimeout)
  {
    hide AllLifted, Numerals.Print, Default;
    AllLiftedValues(c);
  }

  /** Adjusting changes nothing exactly when the rule is followed already. */
  lemma FollowsIffFixed(c: Configuration)
    requires Readable(c)
    ensures Follows(c) <==> Adjusted(c) == c
  {
    hide Numerals.Print;
    if Adjusted(c) == c { AdjustedValues(c); }
  }

  lemma UnreadableTwice(c: Configuration)
    requires !Readable(c)
    ensures Adjusted(Adjusted(c)) == Adjusted(c)
  {
    hide Numerals.Print;
    AllLiftedValues(c);
    AllLiftedValues(AllLifted(c));
  }

  /** Adjusting again changes nothing, whether or not the first time ended in an error. */
  lemma AdjustedTwice(c: Configuration)
    ensures Adjusted(Adjusted(c)) == Adjusted(c)
  {
    if Readable(c) {
      hide Adjusted;
      AdjustedValues(c);
      FollowsIffFixed(Adjusted(c));
    } else {
      UnreadableTwice(c);
    }
  }

  /**
   No values within the requested limits come closer to what was asked: retry_timeout is the greatest that leaves
   room for some loop_wait, and loop_wait is the greatest for that retry_timeout. The one exception is a loop_wait
   of 1 where 2 would do, when retry_timeout was cut and ttl is even.
   */
  lemma AdjustedIsGreatest(c: Configuration, loopWait: int, retryTimeout: int)
    requires Readable(c)
    requires var ttl := Reading(Adjusted(c), Ttl).value;
      && Rule(loopWait, retryTimeout, ttl)
      && loopWait <= Max(1, Reading(c, LoopWait).value) && retryTimeout <= Max(3, Reading(c, RetryTimeout).value)
    ensures var d := Adjusted(c);
      && retryTimeout <= Reading(d, RetryTimeout).value
      && (retryTimeout == Reading(d, RetryTimeout).value ==> loopWait <= Reading(d, LoopWait).value + 1)
      && (retryTimeout == Reading(d, RetryTimeout).value && loopWait > Reading(d, LoopWait).value <==>
          && retryTimeout == Reading(d, RetryTimeout).value && loopWait == 2
          && Max(3, Reading(c, RetryTimeout).value) > retryTimeout && Reading(d, Ttl).value % 2 == 0)
  {
    hide Adjusted;
    AdjustedValues(c);
  }

  /** With ttl 20, a loop_wait of 2 and a retry_timeout of 10 become 1 and 9, although 2 and 9 follow the rule. */
  lemma LoopWaitCutWitness()
    ensures var c: Configuration := map[LoopWait := Whole(2), RetryTimeout := Whole(10), Ttl := Whole(20)];
            && Reading(Adjusted(c), LoopWait) == Some(1) && Reading(Adjusted(c), RetryTimeout) == Some(9)
            && Reading(Adjusted(c), Ttl) == Some(20) && Rule(2, 9, 20)
  {
    hide Numerals.Print, Adjusted;
    AdjustedValues(map[LoopWait := Whole(2), RetryTimeout := Whole(10), Ttl := Whole(20)]);
  }

  // ---------- the effective configuration ----------

  /** Whether the sections of the dynamic configuration can be processed. */
  predicate Processable(c: Configuration) {
    forall name | name in c && (name.Postgresql? || name.StandbyCluster?) :: c[name].section
  }

  /**
   The timing part of the effective configuration and the local settings; building it fails on a section that
   cannot be processed and on a timing value that is not a number.
   */
  function Effective(dynamic: Configuration, local: Configuration): Option<Configuration> {
    if !Processable(dynamic) || !Processable(local) || !Readable(dynamic) then None
    else Some(map name | name in local.Keys + {LoopWait, RetryTimeout, Ttl} ::
                if Timing(name) then Whole(Reading(dynamic, name).value) else local[name])
  }

  /** `deep_compare`: the same names with values that print alike. */
  predicate Alike(a: Configuration, b: Configuration) {
    a.Keys == b.Keys && forall name | name in a :: a[name].text == b[name].text
  }

  datatype State = State(dynamic: Configuration, local: Configuration, effective: Configuration, version: int)
  {
    predicate Valid() { Follows(dynamic) && Effective(dynamic, local) == Some(effective) }
  }

  datatype Event =
    | SetDynamic(configuration: Configuration, version: Option<int>)
    | ReloadLocal(loaded: Option<Configuration>)

  function WithDynamic(s: State, c: Configuration, version: Option<int>): State {
    if version == Some(s.version) then s
    else
      var t := if version.Some? then s.(version := version.value) else s;
      var effective := Effective(Adjusted(c), s.local);
      if Alike(s.dynamic, c) || !Readable(c) || effective.None? then t
      else t.(dynamic := Adjusted(c), effective := effective.value)
  }

  function WithLocal(s: State, loaded: Option<Configuration>): State {
    if loaded.None? || Alike(s.local, loaded.value) then s
    else
      var effective := Effective(s.dynamic, loaded.value);
      if effective.None? then s else s.(local := loaded.value, effective := effective.value)
  }

  function Step(s: State, e: Event): State {
    match e
    case SetDynamic(c, version) => WithDynamic(s, c, version)
    case ReloadLocal(loaded) => WithLocal(s, loaded)
  }

  function Run(s: State, events: seq<Event>): State
    decreases |events|
  {
    if events == [] then s else Run(Step(s, events[0]), events[1..])
  }

  /** Some value has been added, dropped, or prints differently. */
  ghost predicate Differs(a: Configuration, b: Configuration) {
    exists name :: ((name in a) != (name in b)) || (name in a && name in b && a[name].text != b[name].text)
  }

  /** Both sections, as far as there are any, can be processed. */
  predicate SectionsFit(c: Configuration) {
    && (Postgresql in c ==> c[Postgresql].section)
    && (StandbyCluster in c ==> c[StandbyCluster].section)
  }

  lemma Compared(a: Configuration, b: Configuration)
    ensures Alike(a, b) <==> !Differs(b, a)
    ensures Processable(a) <==> SectionsFit(a)
  {}

  /** Adjusting leaves everything but the timing alone. */
  lemma AdjustedOthers(c: Configuration, name: Key)
    requires !Timing(name)
    ensures name in Adjusted(c) <==> name in c
    ensures name in c ==> Adjusted(c)[name] == c[name]
  {
    AllLiftedValues(c);
    hide AllLifted, Numerals.Print, Default, Readable, Reading;
  }

  lemma AdjustedSections(c: Configuration)
    ensures SectionsFit(Adjusted(c)) <==> SectionsFit(c)
  {
    AdjustedOthers(c, Postgresql);
    AdjustedOthers(c, StandbyCluster);
    hide Adjusted;
  }

  lemma UpdateIsAccepted(s: State, c: Configuration, version: Option<int>)
    requires s.Valid() && version != Some(s.version) && Readable(c) && Differs(c, s.dynamic) && SectionsFit(c)
    ensures var t := WithDynamic(s, c, version);
      && Processable(Adjusted(c)) && Processable(s.local) && Readable(Adjusted(c))
      && Some(t.effective) == Effective(Adjusted(c), s.local) && t.dynamic == Adjusted(c) && t.local == s.local
      && (version.Some? ==> t.version == version.value)
  {
    var d := Adjusted(c);
    AdjustedIsReadable(c);
    AdjustedSections(c);
    Compared(s.dynamic, c);
    Compared(d, d);
    hide Adjusted, Processable, SectionsFit, Alike, Differs, Readable, Follows;
  }

  lemma AdjustedIsReadable(c: Configuration)
    requires Readable(c)
    ensures Readable(Adjusted(c))
  {
    AdjustedValues(c);
  }

  /** The adjusted values of a readable configuration. */
  function TtlFor(c: Configuration): int
    requires Readable(c)
  {
    Max(20, Reading(c, Ttl).value)
  }

  function RetryTimeoutFor(c: Configuration): int
    requires Readable(c)
  {
    Min(Max(3, Reading(c, RetryTimeout).value), (TtlFor(c) - 1) / 2)
  }

  function LoopWaitFor(c: Configuration): int
    requires Readable(c)
  {
    if 1 + 2 * Max(3, Reading(c, RetryTimeout).value) > TtlFor(c) then 1
    else Min(Max(1, Reading(c, LoopWait).value), TtlFor(c) - 2 * RetryTimeoutFor(c))
  }

  lemma AdjustedReadings(c: Configuration)
    requires Readable(c)
    ensures Reading(Adjusted(c), Ttl) == Some(TtlFor(c))
    ensures Reading(Adjusted(c), RetryTimeout) == Some(RetryTimeoutFor(c))
    ensures Reading(Adjusted(c), LoopWait) == Some(LoopWaitFor(c))
  {
    AdjustedValues(c);
    hide Adjusted;
  }

  /** An update that has changes, a new version and only values that can be read takes effect, adjusted. */
  lemma UpdateTakesEffect(s: State, c: Configuration, version: Option<int>)
    requires s.Valid() && version != Some(s.version) && Readable(c) && Differs(c, s.dynamic) && SectionsFit(c)
    ensures var t := WithDynamic(s, c, version);
      && Reading(t.effective, Ttl) == Some(TtlFor(c))
      && Reading(t.effective, RetryTimeout) == Some(RetryTimeoutFor(c))
      && Reading(t.effective, LoopWait) == Some(LoopWaitFor(c))
      && t.local == s.local && (version.Some? ==> t.version == version.value)
      && forall name | name in c && !Timing(name) :: name in t.dynamic && t.dynamic[name] == c[name]
  {
    UpdateIsAccepted(s, c, version);
    AdjustedReadings(c);
    forall name | !Timing(name)
      ensures name in c ==> name in Adjusted(c) && Adjusted(c)[name] == c[name]
    {
      AdjustedOthers(c, name);
    }
    EffectiveReads(Adjusted(c), s.local);
    hide Adjusted, Effective, WithDynamic, Processable, SectionsFit, Differs, Rule, Reading, Readable;
    hide TtlFor, RetryTimeoutFor, LoopWaitFor;
  }

  lemma EffectiveReads(dynamic: Configuration, local: Configuration)
    requires Processable(dynamic) && Processable(local) && Readable(dynamic)
    ensures Effective(dynamic, local).Some?
    ensures forall name | Timing(name) :: Reading(Effective(dynamic, local).value, name) == Reading(dynamic, name)
    ensures forall name | !Timing(name) :: name in Effective(dynamic, local).value <==> name in local
    ensures forall name | name in local && !Timing(name) :: Effective(dynamic, local).value[name] == local[name]
  {
    hide Numerals.Print;
  }

  /** Before any update: a ttl of 30, a loop_wait and a retry_timeout of 10, whatever the local configuration says. */
  lemma InitialTiming(local: Configuration)
    requires Processable(local)
    ensures var e := Effective(map[], local);
      && e.Some? && Reading(e.value, Ttl) == Some(30)
      && Reading(e.value, LoopWait) == Some(10) && Reading(e.value, RetryTimeout) == Some(10)
  {
    EffectiveReads(map[], local);
    hide Effective;
  }

  /** Any other update leaves the configuration alone. */
  lemma UpdateIsIgnored(s: State, c: Configuration, version: Option<int>)
    requires s.Valid()
    requires version == Some(s.version) || !Differs(c, s.dynamic) || !Readable(c) || !SectionsFit(c)
    ensures var t := WithDynamic(s, c, version);
      && t.dynamic == s.dynamic && t.local == s.local && t.effective == s.effective
      && t.version == if version.Some? then version.value else s.version
  {
    Compared(s.dynamic, c);
    Compared(Adjusted(c), c);
    AdjustedSections(c);
    hide Adjusted, SectionsFit, Alike, Differs, Readable, Processable;
  }

  /** A reload with changes that can be processed takes effect, except for the timing. */
  lemma ReloadTakesEffect(s: State, loaded: Configuration)
    requires s.Valid() && Differs(loaded, s.local) && SectionsFit(loaded)
    ensures var t := WithLocal(s, Some(loaded));
      && t.local == loaded && t.dynamic == s.dynamic
      && (forall name | !Timing(name) :: name in t.effective <==> name in loaded)
      && (forall name | name in loaded && !Timing(name) :: t.effective[name] == loaded[name])
      && (forall name | Timing(name) :: Reading(t.effective, name) == Reading(s.effective, name))
  {
    Compared(s.local, loaded);
    Compared(loaded, s.local);
    EffectiveReads(s.dynamic, loaded);
    EffectiveReads(s.dynamic, s.local);
    hide Effective, Reading, SectionsFit, Alike, Differs, Processable;
  }

  lemma StepKeepsValid(s: State, e: Event)
    requires s.Valid()
    ensures Step(s, e).Valid()
  {
    hide Adjusted, Numerals.Print;
    if e.SetDynamic? && Readable(e.configuration) { AdjustedValues(e.configuration); }
  }

  /** The rule holds for the values in effect after every history of updates and reloads. */
  lemma {:induction false} EveryHistoryFollowsTheRule(s: State, events: seq<Event>)
    requires s.Valid()
    ensures var r := Run(s, events); r.Valid() && Follows(r.effective)
    ensures var r := Run(s, events);
      forall name | Timing(name) :: Reading(r.effective, name) == Reading(r.dynamic, name)
    decreases |events|
  {
    if events != [] {
      StepKeepsValid(s, events[0]);
      EveryHistoryFollowsTheRule(Step(s, events[0]), events[1..]);
    }
  }

  /** Nothing in the local configuration has a say in the timing. */
  lemma LocalHasNoSay(dynamic: Configuration, a: Configuration, b: Configuration, name: Key)
    requires Timing(name) && Effective(dynamic, a).Some? && Effective(dynamic, b).Some?
    ensures Reading(Effective(dynamic, a).value, name) == Reading(Effective(dynamic, b).value, name)
  {}

  // ---------- the objects ----------

  /** A configuration that is changed in place, also when the change ends in an error. */
  class Dictionary {
    var entries: Configuration

    constructor (entries: Configuration)
      ensures this.entries == entries
    {
      this.entries := entries;
    }
  }

  method GetAndMaybeAdjustIntValue(config: Dictionary, param: Key) returns (value: Option<int>)
    modifies config
    ensures config.entries == Lifted(old(config.entries), param)
    ensures value == Reading(config.entries, param)
    ensures value.Some? ==> value.value >= Minimum(param)
  {
    value := if param in config.entries then config.entries[param].number else Some(Default(param));
    if value.Some? && value.value < Minimum(param) {
      value := Some(Minimum(param));
      config.entries := config.entries[param := Whole(value.value)];
    }
  }

  /** Reads the three values in turn, raising each to its minimum, up to the first one that cannot be read. */
  method ReadTimeouts(config: Dictionary) returns (timeouts: Option<(int, int, int)>)
    modifies config
    ensures config.entries == AllLifted(old(config.entries))
    ensures timeouts.Some? <==> Readable(config.entries)
    ensures timeouts.Some? ==> timeouts.value == (Reading(config.entries, LoopWait).value,
      Reading(config.entries, RetryTimeout).value, Reading(config.entries, Ttl).value)
  {
    hide Numerals.Print, Default, Minimum;
    var loopWait := GetAndMaybeAdjustIntValue(config, LoopWait);
    if loopWait.None? {
      return None;
    }
    var retryTimeout := GetAndMaybeAdjustIntValue(config, RetryTimeout);
    if retryTimeout.None? {
      return None;
    }
    var ttl := GetAndMaybeAdjustIntValue(config, Ttl);
    if ttl.None? {
      return None;
    }
    return Some((loopWait.value, retryTimeout.value, ttl.value));
  }

  method ValidateAndAdjustTimeouts(config: Dictionary) returns (raised: bool)
    modifies config
    ensures config.entries == Adjusted(old(config.entries))
    ensures raised <==> !Readable(old(config.entries))
    ensures !raised ==> Follows(config.entries)
  {
    hide AllLifted, Numerals.Print, Default, Minimum, Rule;
    AllLiftedValues(config.entries);
    if Readable(config.entries) { AdjustedValues(config.entries); }
    var timeouts := ReadTimeouts(config);
    if timeouts.None? {
      return true;
    }
    var (loopWait, retryTimeout, ttl) := timeouts.value;
    if 1 + 2 * retryTimeout > ttl {
      config.entries := config.entries[LoopWait := Whole(1)];
      config.entries := config.entries[RetryTimeout := Whole((ttl - 1) / 2)];
    } else if loopWait + 2 * retryTimeout > ttl {
      config.entries := config.entries[LoopWait := Whole(ttl - 2 * retryTimeout)];
    }
    return false;
  }

  class Config {
    var dynamic: Dictionary
    var local: Configuration
    var effective: Configuration
    var modifyVersion: int
    var cacheNeedsSaving: bool

    ghost function Model(): State
      reads this, dynamic
    {
      State(dynamic.entries, local, effective, modifyVersion)
    }

    ghost predicate Valid()
      reads this, dynamic
      ensures Valid() ==> Follows(effective)
    {
      Model().Valid()
    }

    constructor (local: Configuration)
      requires Processable(local)
      ensures Valid() && fresh(dynamic) && dynamic.entries == map[] && this.local == local && modifyVersion == -1
    {
      modifyVersion := -1;
      dynamic := new Dictionary(map[]);
      this.local := local;
      effective := Effective(map[], local).value;
      cacheNeedsSaving := false;
    }

    /**
     The dictionary that is passed in is adjusted in place, and becomes the dynamic configuration if nothing fails.
     A version is given when the configuration comes from the DCS.
     */
    method SetDynamicConfiguration(configuration: Dictionary, version: Option<int>) returns (changed: bool)
      requires Valid()
      modifies this, configuration
      ensures Valid()
      ensures Model() == WithDynamic(old(Model()), old(configuration.entries), version)
      ensures dynamic == if changed then configuration else old(dynamic)
      ensures configuration.entries == old(configuration.entries)
           || configuration.entries == Adjusted(old(configuration.entries))
      ensures changed ==> cacheNeedsSaving
    {
      hide Adjusted, Numerals.Print, Effective;
      StepKeepsValid(Model(), SetDynamic(configuration.entries, version));
      if version == Some(modifyVersion) {
        return false;
      }
      if version.Some? {
        modifyVersion := version.value;
      }
      if Alike(dynamic.entries, configuration.entries) {
        return false;
      }
      var raised := ValidateAndAdjustTimeouts(configuration);
      if raised {
        return false;
      }
      var built := Effective(configuration.entries, local);
      if built.None? {
        return false;
      }
      effective := built.value;
      dynamic := configuration;
      cacheNeedsSaving := true;
      return true;
    }

    /** `loaded` is the content of the configuration file, if it can be read. */
    method ReloadLocalConfiguration(loaded: Option<Configuration>) returns (changed: bool)
      requires Valid()
      modifies this
      ensures Valid()
      ensures Model() == WithLocal(old(Model()), loaded)
      ensures !changed ==> Model() == old(Model())
      ensures dynamic == old(dynamic)
    {
      if loaded.None? || Alike(local, loaded.value) {
        return false;
      }
      var built := Effective(dynamic.entries, loaded.value);
      if built.None? {
        return false;
      }
      local, effective := loaded.value, built.value;
      return true;
    }
  }
}
