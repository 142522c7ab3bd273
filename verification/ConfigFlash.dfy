// The two-slot configuration store of firmware/user/config.c:45-89 under power failures.
//
// A save writes the slot that is not in use and then flips the flag byte.  Power may fail
// inside any erase or write and leave anything at all in the sector being changed.
module ConfigFlash {

  const CFG_HOLDER := 0x00FF55A2

  // A configuration: its marker word and everything else.
  datatype Config = Config(holder: int, settings: seq<int>)

  // What an erased sector reads as.
  const ERASED_SLOT := Config(0xFFFFFFFF, [])
  const ERASED_FLAG := 0xFF

  datatype Flash = Flash(slot0: Config, slot1: Config, flag: int)

  // Power during one save: it lasts for `operations` erases and writes, and the next one is
  // interrupted and leaves `junk` (or `junkFlag`) in its sector.
  datatype Power = Power(operations: nat, junk: Config, junkFlag: int)

  const OPERATIONS_PER_SAVE := 4

  // The configuration a boot would read.
  function Active(f: Flash): Config {
    if f.flag == 0 then f.slot0 else f.slot1
  }

  predicate ValidHolder(c: Config) {
    c.holder == CFG_HOLDER
  }

  // ------------------------------------------------------------------ the flash chip

  datatype Sector = Slot0 | Slot1 | Flag

  class Chip {
    var slot0: Config
    var slot1: Config
    var flag: int
    var power: Power
    var dead: bool      // power has failed; nothing more happens until the next boot

    ghost function View(): Flash
      reads this
    {
      Flash(slot0, slot1, flag)
    }

    constructor (f: Flash, power: Power)
      ensures View() == f && this.power == power && !dead
    {
      slot0, slot1, flag := f.slot0, f.slot1, f.flag;
      this.power, dead := power, false;
    }

    // One flash operation: set the sector to what the operation leaves, or to junk if power
    // fails during it.
    method Operate(s: Sector, config: Config, value: int)
      modifies this
      ensures dead == (old(dead) || old(power).operations == 0)
      ensures power == if dead then old(power) else old(power).(operations := old(power).operations - 1)
      ensures var c := if dead then old(power).junk else config;
              var v := if dead then old(power).junkFlag else value;
              View() == if old(dead) then old(View())
                        else match s
                          case Slot0 => old(View()).(slot0 := c)
                          case Slot1 => old(View()).(slot1 := c)
                          case Flag => old(View()).(flag := v)
    {
      if dead {
        return;
      }
      var c, v := config, value;
      if power.operations == 0 {
        dead, c, v := true, power.junk, power.junkFlag;
      } else {
        power := power.(operations := power.operations - 1);
      }
      match s
      case Slot0 => slot0 := c;
      case Slot1 => slot1 := c;
      case Flag => flag := v;
    }

    method Erase(s: Sector)
      modifies this
      ensures dead == (old(dead) || old(power).operations == 0)
      ensures power == if dead then old(power) else old(power).(operations := old(power).operations - 1)
      ensures var c := if dead then old(power).junk else ERASED_SLOT;
              var v := if dead then old(power).junkFlag else ERASED_FLAG;
              View() == if old(dead) then old(View())
                        else match s
                          case Slot0 => old(View()).(slot0 := c)
                          case Slot1 => old(View()).(slot1 := c)
                          case Flag => old(View()).(flag := v)
    {
      Operate(s, ERASED_SLOT, ERASED_FLAG);
    }

    // Flash can only be programmed where it has been erased.
    method WriteSlot(s: Sector, config: Config)
      requires s != Flag
      requires dead || (if s == Slot0 then slot0 else slot1) == ERASED_SLOT
      modifies this
      ensures dead == (old(dead) || old(power).operations == 0)
      ensures power == if dead then old(power) else old(power).(operations := old(power).operations - 1)
      ensures var c := if dead then old(power).junk else config;
              View() == if old(dead) then old(View())
                        else if s == Slot0 then old(View()).(slot0 := c) else old(View()).(slot1 := c)
    {
      Operate(s, config, 0);
    }

    method WriteFlag(value: int)
      requires dead || flag == ERASED_FLAG
      modifies this
      ensures dead == (old(dead) || old(power).operations == 0)
      ensures power == if dead then old(power) else old(power).(operations := old(power).operations - 1)
      ensures View() == if old(dead) then old(View())
                        else old(View()).(flag := if dead then old(power).junkFlag else value)
    {
      Operate(Flag, ERASED_SLOT, value);
    }

    // CFG_Save
    method Save(sysCfg: Config)
      requires !dead
      modifies this
      ensures View() == AfterSave(old(View()), sysCfg, old(power))
      ensures dead <==> old(power).operations < OPERATIONS_PER_SAVE
    {
      var saveFlag := flag;
      if saveFlag == 0 {
        Erase(Slot1);
        WriteSlot(Slot1, sysCfg);
        saveFlag := 1;
        Erase(Flag);
        WriteFlag(saveFlag);
      } else {
        Erase(Slot0);
        WriteSlot(Slot0, sysCfg);
        saveFlag := 0;
        Erase(Flag);
        WriteFlag(saveFlag);
      }
    }

    // CFG_Load: the defaults replace an unmarked configuration, and are saved.
    method Load(def: bool, defaults: Config) returns (sysCfg: Config)
      requires !dead
      modifies this
      ensures var fallBack := def || !ValidHolder(Active(old(View())));
              && sysCfg == (if fallBack then defaults else Active(old(View())))
              && View() == (if fallBack then AfterSave(old(View()), defaults, old(power)) else old(View()))
              && (dead <==> fallBack && old(power).operations < OPERATIONS_PER_SAVE)
    {
      var saveFlag := flag;
      if saveFlag == 0 {
        sysCfg := slot0;
      } else {
        sysCfg := slot1;
      }
      if def || sysCfg.holder != CFG_HOLDER {
        sysCfg := defaults;
        Save(sysCfg);
      }
    }
  }

  // The flash after a save under the given power.
  function AfterSave(f: Flash, c: Config, p: Power): Flash {
    var n := p.operations;
    var slot := if n >= 2 then c else p.junk;
    var flag :=
      if n < 2 then f.flag
      else if n < 4 then p.junkFlag
      else if f.flag == 0 then 1 else 0;
    if f.flag == 0 then f.(slot1 := slot, flag := flag) else f.(slot0 := slot, flag := flag)
  }

  // Every save is atomic: whatever power does, the next boot reads the old configuration or
  // the new one, whole; and the new one once the save has run to its end.
  lemma SaveIsAtomic(f: Flash, c: Config, p: Power)
    ensures Active(AfterSave(f, c, p)) == Active(f) || Active(AfterSave(f, c, p)) == c
    ensures p.operations >= OPERATIONS_PER_SAVE ==> Active(AfterSave(f, c, p)) == c
    ensures p.operations < 2 ==> Active(AfterSave(f, c, p)) == Active(f)
    ensures AfterSave(f, c, p).slot0 == f.slot0 || AfterSave(f, c, p).slot1 == f.slot1
  {
  }

  // ------------------------------------------------------------------ runs

  datatype Event =
    | SaveConfig(config: Config, power: Power)
    | Boot(def: bool, power: Power)

  // A save that was begun, and whether it ran to its end.
  datatype Attempt = Attempt(config: Config, completed: bool)

  // The flash, the saves begun so far, and the one the flash now shows.
  datatype History = History(flash: Flash, attempts: seq<Attempt>, shown: nat)

  function Attempted(h: History, c: Config, p: Power): History {
    var f := AfterSave(h.flash, c, p);
    History(f, h.attempts + [Attempt(c, p.operations >= OPERATIONS_PER_SAVE)],
            if Active(f) == c then |h.attempts| else h.shown)
  }

  predicate FallsBack(f: Flash, def: bool) {
    def || !ValidHolder(Active(f))
  }

  function Step(h: History, defaults: Config, e: Event): History {
    match e
    case SaveConfig(c, p) => Attempted(h, c, p)
    case Boot(def, p) => if FallsBack(h.flash, def) then Attempted(h, defaults, p) else h
  }

  function Run(h: History, defaults: Config, events: seq<Event>): History
    decreases |events|
  {
    if events == [] then h
    else Step(Run(h, defaults, events[..|events| - 1]), defaults, events[|events| - 1])
  }

  // A history begins with whatever the flash reads as.
  function Begin(f: Flash): History {
    History(f, [Attempt(Active(f), true)], 0)
  }

  // The flash shows one of the configurations ever begun, whole, and none older than the
  // last completed save.
  ghost predicate ShowsRecentSave(h: History) {
    && h.shown < |h.attempts|
    && Active(h.flash) == h.attempts[h.shown].config
    && forall i :: h.shown < i < |h.attempts| ==> !h.attempts[i].completed
  }

  lemma AttemptShowsRecentSave(h: History, c: Config, p: Power)
    requires ShowsRecentSave(h)
    ensures ShowsRecentSave(Attempted(h, c, p)) && Attempted(h, c, p).shown >= h.shown
  {
    SaveIsAtomic(h.flash, c, p);
  }

  // The crash-safety theorem, over every run of saves and boots with power failing anywhere.
  lemma {:induction false} NeverMixedNeverOlder(f: Flash, defaults: Config, events: seq<Event>)
    ensures ShowsRecentSave(Run(Begin(f), defaults, events))
    decreases |events|
  {
    if events != [] {
      NeverMixedNeverOlder(f, defaults, events[..|events| - 1]);
      var h := Run(Begin(f), defaults, events[..|events| - 1]);
      match events[|events| - 1]
      case SaveConfig(c, p) => AttemptShowsRecentSave(h, c, p);
      case Boot(def, p) => AttemptShowsRecentSave(h, defaults, p);
    }
  }

  // What the flash shows never goes back to an earlier save.
  lemma {:induction false} ShownNeverGoesBack(f: Flash, defaults: Config, events: seq<Event>, n: nat)
    requires n <= |events|
    ensures Run(Begin(f), defaults, events[..n]).shown <= Run(Begin(f), defaults, events).shown
    decreases |events|
  {
    if n < |events| {
      var before := events[..|events| - 1];
      assert before[..n] == events[..n];
      ShownNeverGoesBack(f, defaults, before, n);
      NeverMixedNeverOlder(f, defaults, before);
      var h := Run(Begin(f), defaults, before);
      match events[|events| - 1]
      case SaveConfig(c, p) => AttemptShowsRecentSave(h, c, p);
      case Boot(def, p) => AttemptShowsRecentSave(h, defaults, p);
    } else {
      assert events[..n] == events;
    }
  }

  predicate KeepsHolder(e: Event) {
    match e
    case SaveConfig(c, p) => ValidHolder(c)
    case Boot(def, p) => !def
  }

  // Once the flash shows a marked configuration, and in particular after the first completed
  // save of one, no later boot falls back to the defaults unless it is told to.
  lemma {:induction false} NeverFallsBackAgain(h: History, defaults: Config, events: seq<Event>)
    requires ValidHolder(Active(h.flash))
    requires forall e :: e in events ==> KeepsHolder(e)
    ensures ValidHolder(Active(Run(h, defaults, events).flash))
    ensures !FallsBack(Run(h, defaults, events).flash, false)
    decreases |events|
  {
    if events != [] {
      NeverFallsBackAgain(h, defaults, events[..|events| - 1]);
      var last := events[|events| - 1];
      assert last in events;
      match last
      case SaveConfig(c, p) => SaveIsAtomic(Run(h, defaults, events[..|events| - 1]).flash, c, p);
      case Boot(def, p) =>
    }
  }

  // A boot that loses power while saving the defaults over an unmarked store is repeated by
  // the next boot, or finds the defaults in place.
  lemma InterruptedDefaults(f: Flash, defaults: Config, p: Power)
    requires !ValidHolder(Active(f)) && ValidHolder(defaults)
    ensures var g := AfterSave(f, defaults, p);
            if FallsBack(g, false) then Active(g) == Active(f) else Active(g) == defaults
  {
    SaveIsAtomic(f, defaults, p);
  }

  // A boot without a marked configuration, or told to use the defaults, puts them in place if power
  // lasts, and every later boot finds them there and writes nothing.
  lemma {:induction false} FirstBootSettles(f: Flash, defaults: Config, def: bool, p: Power, boots: seq<Event>)
    requires def || Active(f).holder != 0x00FF55A2
    requires defaults.holder == 0x00FF55A2 && p.operations >= 4
    requires forall e :: e in boots ==> e.Boot? && !e.def
    ensures var first := Step(Begin(f), defaults, Boot(def, p));
            Active(first.flash) == defaults && Run(first, defaults, boots) == first
    decreases |boots|
  {
    if boots != [] {
      var last := boots[|boots| - 1];
      assert last in boots;
      FirstBootSettles(f, defaults, def, p, boots[..|boots| - 1]);
    }
  }
}
