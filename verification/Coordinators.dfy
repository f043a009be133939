/** The coordinator process: registration of workers, saving, and one incarnation after another. */
module Coordinators {
  import opened Types
  import opened Engine
  import opened Fabrics
  import opened Fencing
  import Accumulators
  import Restart
  import Binary
  import ByteStreams
  import Codec
  import Crc32
  import Persistence

  // ----- Registration -----

  datatype Hello = Hello(name: Text, boot: U64, epoch: U64)

  const MAX_NAME: nat := 256

  function HelloOf(payload: seq<byte>): Option<Hello> {
    var (name, s) :- Binary.GetText(payload, MAX_NAME);
    var (boot, s) :- Binary.GetU64(s);
    var (epoch, _) :- Binary.GetU64(s);
    Some(Hello(name, boot, epoch))
  }

  datatype Ack = Malformed | StaleEpoch(current: U64) | StaleBoot(current: U64) | Registered(current: U64)

  /** The boot ids that were used for each worker name. */
  type Boots = map<Text, seq<U64>>

  function BootsOf(seen: Boots, name: Text): seq<U64> {
    if name in seen then seen[name] else []
  }

  function Greet(epoch: U64, seen: Boots, payload: seq<byte>): (Boots, Ack) {
    match HelloOf(payload)
    case None => (seen, Malformed)
    case Some(h) =>
      if h.epoch != epoch then (seen, StaleEpoch(epoch))
      else if h.boot in BootsOf(seen, h.name) then (seen[h.name := BootsOf(seen, h.name)], StaleBoot(epoch))
      else (seen[h.name := BootsOf(seen, h.name) + [h.boot]], Registered(epoch))
  }

  /** The answer to a greeting that names a worker, its boot id and an epoch, in this order: a name of more than
      256 bytes is malformed, another epoch is stale, a boot id of that name is taken once, and nothing else
      is remembered. */
  lemma GreetingAnswered(epoch: U64, seen: Boots, h: Hello, rest: seq<byte>, other: Text)
    ensures var payload := Binary.PutText(h.name, Binary.PutU64(h.boot, Binary.PutU64(h.epoch, rest)));
      var (seen', ack) := Greet(epoch, seen, payload);
      && ack == (if |h.name| > 256 then Malformed
                 else if h.epoch != epoch then StaleEpoch(epoch)
                 else if h.boot in BootsOf(seen, h.name) then StaleBoot(epoch)
                 else Registered(epoch))
      && BootsOf(seen', other)
         == (if ack.Registered? && other == h.name then BootsOf(seen, other) + [h.boot] else BootsOf(seen, other))
  {
    var tail := Binary.PutU64(h.boot, Binary.PutU64(h.epoch, rest));
    var payload := Binary.PutText(h.name, tail);
    assert Binary.GetText(payload, MAX_NAME) == if |h.name| <= 256 then Some((h.name, tail)) else None;
  }

  // ----- Files -----

  /** What makes a state of the bytes of a file, or fails. */
  type Loader = seq<byte> -> Option<DurableState>

  function LoadedFrom(load: Loader, disk: Option<seq<byte>>): Option<DurableState> {
    if disk.None? then None else load(disk.value)
  }

  /** The epoch a file holds, or zero where nothing can be loaded. */
  function DiskEpoch(load: Loader, disk: Option<seq<byte>>): U64 {
    var st := LoadedFrom(load, disk);
    if st.Some? then st.value.epoch else 0
  }

  /** The fabric that a new process ends up with. */
  function Booted(load: Loader, scenario: State, disk: Option<seq<byte>>): State {
    var st := LoadedFrom(load, disk);
    if st.Some? then DoLoad(scenario, st.value).0 else scenario
  }

  lemma BootedEpoch(load: Loader, scenario: State, disk: Option<seq<byte>>)
    requires scenario.epoch == 1
    ensures Booted(load, scenario, disk).epoch == Successor(DiskEpoch(load, disk))
  {}

  // ----- The process object -----

  method DecodeHello(payload: seq<byte>) returns (h: Option<Hello>)
    ensures h == HelloOf(payload)
  {
    var r := new ByteStreams.ByteReader(payload);
    var name := r.ReadText(MAX_NAME);
    if name.None? {
      return None;
    }
    var boot := r.ReadU64();
    if boot.None? {
      return None;
    }
    var epoch := r.ReadU64();
    if epoch.None? {
      return None;
    }
    h := Some(Hello(name.value, boot.value, epoch.value));
  }

  method Used(boots: seq<U64>, boot: U64) returns (used: bool)
    ensures used == (boot in boots)
  {
    for i := 0 to |boots|
      invariant boot !in boots[..i]
    {
      if boots[i] == boot {
        return true;
      }
      assert boots[..i + 1] == boots[..i] + [boots[i]];
    }
    assert boots[..|boots|] == boots;
    used := false;
  }

  class Coordinator {
    const fabric: Fabric
    var epoch: U64
    var seen: Boots

    /** A process that has set up its scenario takes up the state file, if there is a good one. */
    constructor (fabric: Fabric, disk: Option<seq<byte>>)
      requires fabric.epoch == 1
      modifies fabric
      ensures this.fabric == fabric && fabric.Value() == Booted(Persistence.Load, old(fabric.Value()), disk)
      ensures epoch == fabric.epoch && seen == map[]
    {
      this.fabric := fabric;
      epoch, seen := 1, map[];
      new;
      if disk.Some? {
        var st := Persistence.LoadImage(disk.value);
        if st.Some? {
          var _ := fabric.Load(st.value);
          epoch := fabric.epoch;
        }
      }
    }

    method HandleHello(payload: seq<byte>) returns (ack: Ack)
      modifies this
      ensures epoch == old(epoch) && (seen, ack) == Greet(epoch, old(seen), payload)
    {
      var hello := DecodeHello(payload);
      if hello.None? {
        return Malformed;
      }
      var h := hello.value;
      if h.epoch != epoch {
        return StaleEpoch(epoch);
      }
      if h.name !in seen {
        seen := seen[h.name := []];
      }
      var boots := seen[h.name];
      assert seen == old(seen)[h.name := boots];
      var used := Used(boots, h.boot);
      if used {
        return StaleBoot(epoch);
      }
      seen := seen[h.name := boots + [h.boot]];
      assert seen == old(seen)[h.name := boots + [h.boot]];
      ack := Registered(epoch);
    }

    /** What a Kill or a Shutdown message writes to the state file. */
    method SaveFile() returns (image: seq<byte>, order: seq<U64>)
      ensures Enumerates(order, fabric.accs) && image == Crc32.Seal(Codec.Serialize(Saved(fabric.Value(), order)))
    {
      var st;
      order, st := fabric.Save();
      image := Persistence.SaveImage(st);
    }
  }

  // ----- Incarnations -----

  /** How states are written to a file and read back. */
  datatype Format = Format(store: DurableState -> seq<byte>, load: Loader)

  /** A file that was written either gives back what was written or cannot be loaded. */
  ghost predicate Truthful(f: Format) {
    forall st: DurableState {:trigger f.store(st)} :: f.load(f.store(st)) == Some(st) || f.load(f.store(st)) == None
  }

  /** The format in use: the serialized body with its checksum. */
  function FileFormat(): Format {
    Format(st => Crc32.Seal(Codec.Serialize(st)), Persistence.Load)
  }

  /** The format in use is truthful, and a file loads again exactly when the decoder's demands on the
      state are met. */
  lemma SavesLoadAgain(st: DurableState)
    ensures FileFormat().load(FileFormat().store(st))
         == if Codec.GoodState(st) && |Codec.Serialize(st)| <= Codec.MAX_BYTES then Some(st) else None
  {
    Persistence.LoadUndoesSave(st);
  }

  lemma FileFormatIsTruthful()
    ensures Truthful(FileFormat())
  {
    var f := FileFormat();
    forall st: DurableState ensures f.load(f.store(st)) == Some(st) || f.load(f.store(st)) == None {
      SavesLoadAgain(st);
    }
  }

  datatype Process = Process(fabric: State, epoch: U64, seen: Boots)

  /** A worker name and boot id admitted by an incarnation under an epoch. */
  datatype Grant = Grant(name: Text, boot: U64, epoch: U64, incarnation: nat)

  /** What an incarnation leaves behind: no file of its own, one that loads, or one that does not. */
  datatype Leaving = NoFile | Good | Spoilt

  /** The state file, the process if one runs, and what happened: the epoch of each incarnation, what it
      has left, and every registration. */
  datatype World = World(
    disk: Option<seq<byte>>, process: Option<Process>,
    started: seq<U64>, left: seq<Leaving>, granted: seq<Grant>)

  datatype Event =
    | Start
    | Greeting(payload: seq<byte>)
    | Work(op: Op)
    | Shutdown(order: seq<U64>)
    | Kill(order: seq<U64>)
    | Crash

  /** What can happen: a process starts where none runs; a running one answers greetings, works as its
      messages and its monitor ask, saves whatever it holds, and may end with or without saving. */
  ghost predicate Possible(w: World, e: Event) {
    match e
    case Start => w.process.None?
    case Work(op) => w.process.Some? && Restart.MessageCall(op) && Legal(w.process.value.fabric, op)
    case Shutdown(order) => w.process.Some? && Enumerates(order, w.process.value.fabric.accs)
    case Kill(order) => w.process.Some? && Enumerates(order, w.process.value.fabric.accs)
    case _ => w.process.Some?
  }

  /** The last entry replaced. */
  function Marked(left: seq<Leaving>, l: Leaving): seq<Leaving> {
    if left == [] then [] else left[..|left| - 1] + [l]
  }

  /** A save: the file is replaced, whether or not it will load. */
  function Stored(f: Format, w: World, st: DurableState): World {
    var image := f.store(st);
    w.(disk := Some(image), left := Marked(w.left, if f.load(image).Some? then Good else Spoilt))
  }

  function GrantOf(h: Hello, started: seq<U64>): Grant {
    Grant(h.name, h.boot, h.epoch, if started == [] then 0 else |started| - 1)
  }

  function Greeted(w: World, p: Process, payload: seq<byte>): World {
    var (seen, ack) := Greet(p.epoch, p.seen, payload);
    w.(process := Some(p.(seen := seen)),
       granted := if ack.Registered? && HelloOf(payload).Some?
                  then w.granted + [GrantOf(HelloOf(payload).value, w.started)] else w.granted)
  }

  function Begun(f: Format, scenario: State, w: World): World {
    var fabric := Booted(f.load, scenario, w.disk);
    w.(process := Some(Process(fabric, fabric.epoch, map[])),
       started := w.started + [fabric.epoch], left := w.left + [NoFile])
  }

  ghost function Next(f: Format, scenario: State, w: World, e: Event): World
    requires Possible(w, e)
  {
    match e
    case Start => Begun(f, scenario, w)
    case Greeting(payload) => Greeted(w, w.process.value, payload)
    case Work(op) => w.(process := Some(w.process.value.(fabric := Step(w.process.value.fabric, op).0)))
    case Shutdown(order) => Stored(f, w, Saved(w.process.value.fabric, order))
    case Kill(order) => Stored(f, w, Saved(w.process.value.fabric, order)).(process := None)
    case Crash => w.(process := None)
  }

  ghost predicate PossibleRun(f: Format, scenario: State, w: World, es: seq<Event>)
    decreases |es|, 0
  {
    es == [] || (PossibleRun(f, scenario, w, es[..|es| - 1]) && Possible(After(f, scenario, w, es[..|es| - 1]), es[|es| - 1]))
  }

  ghost function After(f: Format, scenario: State, w: World, es: seq<Event>): World
    requires PossibleRun(f, scenario, w, es)
    decreases |es|, 1
  {
    if es == [] then w else Next(f, scenario, After(f, scenario, w, es[..|es| - 1]), es[|es| - 1])
  }

  /** Before the first incarnation. */
  function Untouched(disk: Option<seq<byte>>): World {
    World(disk, None, [], [], [])
  }

  // ----- Epochs -----

  /** The epoch that follows `epoch` after an incarnation that left `l`. */
  function Following(epoch: int, l: Leaving): int {
    match l
    case NoFile => epoch
    case Good => epoch + 1
    case Spoilt => 1
  }

  /** Each incarnation's epoch follows from that of the one before it and from what that one left. */
  predicate Chained(started: seq<U64>, left: seq<Leaving>)
    requires |left| == |started|
  {
    && (forall i {:trigger started[i]} :: 0 <= i < |started| ==> started[i] >= 1)
    && forall i {:trigger left[i]} :: 0 <= i < |started| - 1 ==> started[i + 1] as int == Following(started[i], left[i])
  }

  /** The bookkeeping agrees with the file and with the running process; `bound` is the most that the
      file's epoch can have reached. */
  ghost predicate Consistent(f: Format, w: World, bound: nat) {
    && |w.left| == |w.started| && Chained(w.started, w.left) && DiskEpoch(f.load, w.disk) <= bound
    && (w.started != [] ==>
          && w.started[|w.started| - 1] <= bound + 1
          && DiskEpoch(f.load, w.disk) + 1 == Following(w.started[|w.started| - 1], w.left[|w.left| - 1]))
    && (w.process.Some? ==>
          && w.started != [] && w.process.value.epoch == w.started[|w.started| - 1]
          && w.process.value.fabric.epoch == w.process.value.epoch)
  }

  lemma StartKeeps(f: Format, scenario: State, w: World, bound: nat)
    requires scenario.epoch == 1 && w.process.None? && Consistent(f, w, bound) && bound < TWO_64 - 1
    ensures Consistent(f, Begun(f, scenario, w), bound + 1)
  {
    BootedEpoch(f.load, scenario, w.disk);
    SuccessorDiffers(DiskEpoch(f.load, w.disk));
    var w' := Begun(f, scenario, w);
    assert forall i :: 0 <= i < |w.started| ==> w'.started[i] == w.started[i] && w'.left[i] == w.left[i];
  }

  lemma SaveKeeps(f: Format, w: World, st: DurableState, bound: nat)
    requires Truthful(f) && Consistent(f, w, bound) && bound < TWO_64 - 1
    requires w.process.Some? && st.epoch == w.process.value.epoch
    ensures Consistent(f, Stored(f, w, st), bound + 1)
  {
    var w' := Stored(f, w, st);
    assert f.load(f.store(st)) == Some(st) || f.load(f.store(st)) == None;
    assert forall i :: 0 <= i < |w.left| - 1 ==> w'.left[i] == w.left[i];
  }

  lemma GreetKeeps(f: Format, w: World, payload: seq<byte>, bound: nat)
    requires w.process.Some? && Consistent(f, w, bound)
    ensures Consistent(f, Greeted(w, w.process.value, payload), bound + 1)
  {}

  lemma WorkKeeps(f: Format, scenario: State, w: World, op: Op, bound: nat)
    requires Possible(w, Work(op)) && Consistent(f, w, bound)
    ensures Consistent(f, Next(f, scenario, w, Work(op)), bound + 1)
  {
    StepEpoch(w.process.value.fabric, op);
  }

  lemma NextKeeps(f: Format, scenario: State, w: World, e: Event, bound: nat)
    requires Truthful(f) && scenario.epoch == 1 && Possible(w, e) && Consistent(f, w, bound) && bound < TWO_64 - 1
    ensures Consistent(f, Next(f, scenario, w, e), bound + 1)
  {
    match e
    case Start => StartKeeps(f, scenario, w, bound);
    case Greeting(payload) => GreetKeeps(f, w, payload, bound);
    case Work(op) => WorkKeeps(f, scenario, w, op, bound);
    case Shutdown(order) => SaveKeeps(f, w, Saved(w.process.value.fabric, order), bound);
    case Kill(order) => SaveKeeps(f, w, Saved(w.process.value.fabric, order), bound);
    case Crash =>
  }

  lemma {:induction false} AlwaysConsistent(f: Format, scenario: State, disk: Option<seq<byte>>, es: seq<Event>)
    requires Truthful(f) && scenario.epoch == 1 && PossibleRun(f, scenario, Untouched(disk), es)
    requires DiskEpoch(f.load, disk) + |es| < TWO_64
    ensures Consistent(f, After(f, scenario, Untouched(disk), es), DiskEpoch(f.load, disk) + |es|)
  {
    if es != [] {
      var past := es[..|es| - 1];
      AlwaysConsistent(f, scenario, disk, past);
      NextKeeps(f, scenario, After(f, scenario, Untouched(disk), past), es[|es| - 1], DiskEpoch(f.load, disk) + |past|);
    }
  }

  ghost predicate Increasing(s: seq<U64>) {
    forall i, j {:trigger s[i], s[j]} :: 0 <= i < j < |s| ==> s[i] < s[j]
  }

  ghost predicate NeverFalling(s: seq<U64>) {
    forall i, j {:trigger s[i], s[j]} :: 0 <= i < j < |s| ==> s[i] <= s[j]
  }

  /** Every incarnation that another one followed left a file of its own that loads. */
  ghost predicate AllGood(left: seq<Leaving>) {
    forall i {:trigger left[i]} :: 0 <= i < |left| - 1 ==> left[i].Good?
  }

  /** No incarnation past epoch one that another one followed left a file that does not load. */
  ghost predicate NoneSpoilt(started: seq<U64>, left: seq<Leaving>)
    requires |left| == |started|
  {
    forall i {:trigger left[i]} :: 0 <= i < |left| - 1 && left[i].Spoilt? ==> started[i] == 1
  }

  lemma {:induction false} ChainRises(started: seq<U64>, left: seq<Leaving>, i: nat, j: nat)
    requires |left| == |started| && Chained(started, left) && i <= j < |started|
    ensures NoneSpoilt(started, left) ==> started[i] <= started[j]
    ensures AllGood(left) && i < j ==> started[i] < started[j]
    decreases j
  {
    if i < j {
      ChainRises(started, left, i, j - 1);
      var k := j - 1;
      assert started[k + 1] as int == Following(started[k], left[k]);
    }
  }

  lemma ChainExactly(started: seq<U64>, left: seq<Leaving>)
    requires |left| == |started| && Chained(started, left)
    ensures Increasing(started) <==> AllGood(left)
    ensures NeverFalling(started) <==> NoneSpoilt(started, left)
  {
    forall i, j | 0 <= i < j < |started|
      ensures NoneSpoilt(started, left) ==> started[i] <= started[j]
      ensures AllGood(left) ==> started[i] < started[j]
    {
      ChainRises(started, left, i, j);
    }
    forall i | 0 <= i < |left| - 1
      ensures Increasing(started) ==> left[i].Good?
      ensures NeverFalling(started) && left[i].Spoilt? ==> started[i] == 1
    {
      var k := i + 1;
      assert started[k] as int == Following(started[i], left[i]);
      assert Increasing(started) ==> started[i] < started[k];
      assert NeverFalling(started) ==> started[i] <= started[k];
    }
  }

  /** Across whole runs of incarnations, epochs strictly increase exactly when every incarnation, before
      the next one started, left a file of its own that loads; and they never fall exactly when none
      past epoch one left a file that does not. */
  lemma EpochsIncreaseExactly(f: Format, scenario: State, disk: Option<seq<byte>>, es: seq<Event>)
    requires Truthful(f) && scenario.epoch == 1 && PossibleRun(f, scenario, Untouched(disk), es)
    requires DiskEpoch(f.load, disk) + |es| < TWO_64
    ensures var w := After(f, scenario, Untouched(disk), es);
      && |w.left| == |w.started|
      && (Increasing(w.started) <==> AllGood(w.left)) && (NeverFalling(w.started) <==> NoneSpoilt(w.started, w.left))
  {
    AlwaysConsistent(f, scenario, disk, es);
    var w := After(f, scenario, Untouched(disk), es);
    ChainExactly(w.started, w.left);
  }

  /** Epochs can fall: a process past epoch one that is killed while its state is one that does not load
      again is followed by one at epoch one. */
  lemma EpochFallsAfterSpoiltSave(f: Format, scenario: State, w: World, order: seq<U64>)
    requires scenario.epoch == 1 && w.process.Some? && w.process.value.epoch > 1
    requires Enumerates(order, w.process.value.fabric.accs) && f.load(f.store(Saved(w.process.value.fabric, order))) == None
    ensures var w1 := Next(f, scenario, w, Kill(order));
      var w2 := Next(f, scenario, w1, Start);
      w2.process.value.epoch == 1 < w.process.value.epoch
  {}

  /** In the format in use a fabric gets into such a state by a contract with an empty window, which is
      accepted. The coordinator's messages add no contract. */
  lemma AcceptedContractSpoilsSave(s: State, c: Contract, k: nat, order: seq<U64>, st: DurableState)
    requires DoAddContract(s, c).1 == Answer(Accumulators.Ok) && k < |c.objectives| && c.objectives[k].windowCount <= 0
    requires Enumerates(order, s.accs) && st == Saved(DoAddContract(s, c).0, order)
    ensures FileFormat().load(FileFormat().store(st)) == None
  {
    Restart.AcceptedContractSpoilsFile(s, c, order, k, st);
  }

  /** The running process refuses every intent and every stamped record of every earlier incarnation that
      had another epoch. */
  lemma EarlierIncarnationsAreFenced(f: Format, scenario: State, disk: Option<seq<byte>>, es: seq<Event>, k: nat,
                                     i: Intent, e: Accumulators.Evidence, now: I64)
    requires PossibleRun(f, scenario, Untouched(disk), es)
    requires var w := After(f, scenario, Untouched(disk), es);
      && w.process.Some? && k < |w.started| && w.started[k] != w.process.value.epoch
      && i.epoch == w.started[k] && e.epoch == w.started[k] && e.epoch != 0
    ensures var fabric := After(f, scenario, Untouched(disk), es).process.value.fabric;
      && AuthorizeStatus(fabric, i, now) == Accumulators.StaleAuthority
      && DoIngest(fabric, e).0.accs == fabric.accs && DoIngest(fabric, e).1 != Answer(Accumulators.Ok)
  {
    AlwaysInStep(f, scenario, disk, es);
    StrangeEvidence(After(f, scenario, Untouched(disk), es).process.value.fabric, e);
  }

  /** A process and its fabric have the same epoch. */
  lemma {:induction false} AlwaysInStep(f: Format, scenario: State, disk: Option<seq<byte>>, es: seq<Event>)
    requires PossibleRun(f, scenario, Untouched(disk), es)
    ensures var w := After(f, scenario, Untouched(disk), es);
      w.process.Some? ==> w.process.value.fabric.epoch == w.process.value.epoch
  {
    if es != [] {
      var past, e := es[..|es| - 1], es[|es| - 1];
      AlwaysInStep(f, scenario, disk, past);
      if e.Work? {
        StepEpoch(After(f, scenario, Untouched(disk), past).process.value.fabric, e.op);
      }
    }
  }

  // ----- Files that messages lead to -----

  /** What is loaded always meets the decoder's demands. */
  ghost predicate Checked(f: Format) {
    forall image: seq<byte> {:trigger f.load(image)} :: f.load(image).Some? ==> Codec.GoodState(f.load(image).value)
  }

  /** A good state that fits is stored so that it loads again. */
  ghost predicate Keeps(f: Format, fits: DurableState -> bool) {
    forall st: DurableState {:trigger f.store(st)} :: Codec.GoodState(st) && fits(st) ==> f.load(f.store(st)).Some?
  }

  ghost predicate ProcessSavable(w: World) {
    w.process.Some? ==> Restart.Savable(w.process.value.fabric)
  }

  lemma BootedSavable(f: Format, scenario: State, disk: Option<seq<byte>>)
    requires Checked(f) && Restart.Savable(scenario)
    ensures Restart.Savable(Booted(f.load, scenario, disk))
  {
    var st := LoadedFrom(f.load, disk);
    if st.Some? {
      assert f.load(disk.value) == st;
      Restart.LoadedIsSavable(scenario, st.value);
    }
  }

  lemma {:induction false} AlwaysSavable(f: Format, scenario: State, disk: Option<seq<byte>>, es: seq<Event>)
    requires Checked(f) && Restart.Savable(scenario) && PossibleRun(f, scenario, Untouched(disk), es)
    ensures ProcessSavable(After(f, scenario, Untouched(disk), es))
  {
    if es != [] {
      var past, e := es[..|es| - 1], es[|es| - 1];
      AlwaysSavable(f, scenario, disk, past);
      NextSavable(f, scenario, After(f, scenario, Untouched(disk), past), e);
    }
  }

  lemma NextSavable(f: Format, scenario: State, w: World, e: Event)
    requires Checked(f) && Restart.Savable(scenario) && Possible(w, e) && ProcessSavable(w)
    ensures ProcessSavable(Next(f, scenario, w, e))
  {
    match e
    case Start => BootedSavable(f, scenario, w.disk);
    case Work(op) => Restart.MessageKeepsSavable(w.process.value.fabric, op);
    case _ =>
  }

  /** The event, if it is a save, writes a state that fits, of at most as many accumulators as the
      decoder allows. */
  ghost predicate SaveFits(w: World, e: Event, fits: DurableState -> bool)
    requires Possible(w, e)
  {
    match e
    case Shutdown(order) => |order| <= Codec.MAX_ITEMS && fits(Saved(w.process.value.fabric, order))
    case Kill(order) => |order| <= Codec.MAX_ITEMS && fits(Saved(w.process.value.fabric, order))
    case _ => true
  }

  ghost predicate AllSavesFit(f: Format, scenario: State, w: World, es: seq<Event>, fits: DurableState -> bool)
    requires PossibleRun(f, scenario, w, es)
  {
    es == []
    || (AllSavesFit(f, scenario, w, es[..|es| - 1], fits)
        && SaveFits(After(f, scenario, w, es[..|es| - 1]), es[|es| - 1], fits))
  }

  predicate NeverSpoilt(left: seq<Leaving>) {
    forall i {:trigger left[i]} :: 0 <= i < |left| ==> !left[i].Spoilt?
  }

  lemma SaveLeavesGood(f: Format, w: World, order: seq<U64>, fits: DurableState -> bool)
    requires Keeps(f, fits) && w.process.Some? && ProcessSavable(w) && NeverSpoilt(w.left)
    requires Enumerates(order, w.process.value.fabric.accs) && |order| <= Codec.MAX_ITEMS
    requires fits(Saved(w.process.value.fabric, order))
    ensures NeverSpoilt(Stored(f, w, Saved(w.process.value.fabric, order)).left)
  {
    var st := Saved(w.process.value.fabric, order);
    Restart.SavableIsGood(w.process.value.fabric, order);
    assert f.load(f.store(st)).Some?;
    var left := Stored(f, w, st).left;
    assert forall i :: 0 <= i < |left| - 1 ==> left[i] == w.left[i];
  }

  lemma {:induction false} MessagesNeverSpoil(f: Format, scenario: State, disk: Option<seq<byte>>, es: seq<Event>,
                                              fits: DurableState -> bool)
    requires Checked(f) && Keeps(f, fits) && Restart.Savable(scenario)
    requires PossibleRun(f, scenario, Untouched(disk), es) && AllSavesFit(f, scenario, Untouched(disk), es, fits)
    ensures NeverSpoilt(After(f, scenario, Untouched(disk), es).left)
  {
    if es != [] {
      var past, e := es[..|es| - 1], es[|es| - 1];
      MessagesNeverSpoil(f, scenario, disk, past, fits);
      AlwaysSavable(f, scenario, disk, past);
      NextNeverSpoils(f, scenario, After(f, scenario, Untouched(disk), past), e, fits);
    }
  }

  lemma NextNeverSpoils(f: Format, scenario: State, w: World, e: Event, fits: DurableState -> bool)
    requires Keeps(f, fits) && Possible(w, e) && ProcessSavable(w) && NeverSpoilt(w.left) && SaveFits(w, e, fits)
    ensures NeverSpoilt(Next(f, scenario, w, e).left)
  {
    match e
    case Start =>
      var left := Begun(f, scenario, w).left;
      assert forall i :: 0 <= i < |w.left| ==> left[i] == w.left[i];
    case Shutdown(order) => SaveLeavesGood(f, w, order, fits);
    case Kill(order) => SaveLeavesGood(f, w, order, fits);
    case _ =>
  }

  /** The body of the file is within the decoder's size limit. */
  ghost function FitsFile(): DurableState -> bool {
    (st: DurableState) => |Codec.Serialize(st)| <= Codec.MAX_BYTES
  }

  lemma FileFormatIsChecked()
    ensures Checked(FileFormat())
  {
    forall image: seq<byte>
      ensures FileFormat().load(image).Some? ==> Codec.GoodState(FileFormat().load(image).value)
    {
      Restart.LoadedIsGood(image);
    }
  }

  lemma FileFormatKeeps()
    ensures Keeps(FileFormat(), FitsFile())
  {
    var f := FileFormat();
    forall st: DurableState | Codec.GoodState(st) && FitsFile()(st) ensures f.load(f.store(st)).Some? {
      SavesLoadAgain(st);
    }
  }

  /** Every incarnation that another one followed had saved. */
  predicate AllSaved(left: seq<Leaving>) {
    forall i {:trigger left[i]} :: 0 <= i < |left| - 1 ==> !left[i].NoFile?
  }

  /** The coordinator as it is, with its file format and its messages, from a scenario that can be saved:
      as long as what it saves stays within the decoder's size and count, epochs never fall, and they
      strictly increase exactly when each incarnation saved before the next one started. */
  lemma CoordinatorEpochs(scenario: State, disk: Option<seq<byte>>, es: seq<Event>)
    requires scenario.epoch == 1 && Restart.Savable(scenario)
    requires PossibleRun(FileFormat(), scenario, Untouched(disk), es)
    requires AllSavesFit(FileFormat(), scenario, Untouched(disk), es, FitsFile())
    requires DiskEpoch(FileFormat().load, disk) + |es| < TWO_64
    ensures var w := After(FileFormat(), scenario, Untouched(disk), es);
      NeverFalling(w.started) && (Increasing(w.started) <==> AllSaved(w.left))
  {
    FileFormatIsTruthful();
    FileFormatIsChecked();
    FileFormatKeeps();
    EpochsIncreaseExactly(FileFormat(), scenario, disk, es);
    MessagesNeverSpoil(FileFormat(), scenario, disk, es, FitsFile());
  }

  // ----- Registrations -----

  /** Grants belong to incarnations that were started, under their epochs; one incarnation admits a
      name and boot id once; and the running process has seen all it admitted. */
  ghost predicate Registry(w: World) {
    && (forall i {:trigger w.granted[i]} :: 0 <= i < |w.granted| ==>
          w.granted[i].incarnation < |w.started| && w.granted[i].epoch == w.started[w.granted[i].incarnation])
    && (forall i, j {:trigger w.granted[i], w.granted[j]} :: 0 <= i < j < |w.granted| ==>
          !(w.granted[i].incarnation == w.granted[j].incarnation && w.granted[i].name == w.granted[j].name
            && w.granted[i].boot == w.granted[j].boot))
    && (w.process.Some? ==>
          && w.started != [] && w.process.value.epoch == w.started[|w.started| - 1]
          && forall i {:trigger w.granted[i]} :: 0 <= i < |w.granted| && w.granted[i].incarnation == |w.started| - 1 ==>
               w.granted[i].boot in BootsOf(w.process.value.seen, w.granted[i].name))
  }

  lemma GreetKeepsRegistry(w: World, payload: seq<byte>)
    requires w.process.Some? && Registry(w)
    ensures Registry(Greeted(w, w.process.value, payload))
  {
    var p := w.process.value;
    var (seen, ack) := Greet(p.epoch, p.seen, payload);
    GreetOnlyAdds(p.epoch, p.seen, payload);
    var w' := Greeted(w, p, payload);
    assert forall i :: 0 <= i < |w.granted| ==> w'.granted[i] == w.granted[i];
  }

  lemma GreetOnlyAdds(epoch: U64, seen: Boots, payload: seq<byte>)
    ensures var (seen', ack) := Greet(epoch, seen, payload);
      && (forall name: Text, boot: U64 {:trigger boot in BootsOf(seen', name)} ::
            boot in BootsOf(seen, name) ==> boot in BootsOf(seen', name))
      && (ack.Registered? ==>
            && HelloOf(payload).Some?
            && var h := HelloOf(payload).value;
               h.epoch == epoch && h.boot !in BootsOf(seen, h.name) && h.boot in BootsOf(seen', h.name))
  {}

  lemma StartKeepsRegistry(f: Format, scenario: State, w: World)
    requires w.process.None? && Registry(w)
    ensures Registry(Begun(f, scenario, w))
  {
    var w' := Begun(f, scenario, w);
    assert forall i :: 0 <= i < |w.started| ==> w'.started[i] == w.started[i];
  }

  lemma NextKeepsRegistry(f: Format, scenario: State, w: World, e: Event)
    requires Possible(w, e) && Registry(w)
    ensures Registry(Next(f, scenario, w, e))
  {
    match e
    case Start => StartKeepsRegistry(f, scenario, w);
    case Greeting(payload) => GreetKeepsRegistry(w, payload);
    case _ => QuietKeepsRegistry(f, scenario, w, e);
  }

  lemma QuietKeepsRegistry(f: Format, scenario: State, w: World, e: Event)
    requires Possible(w, e) && Registry(w) && !e.Start? && !e.Greeting?
    ensures Registry(Next(f, scenario, w, e))
  {
    var w' := Next(f, scenario, w, e);
    assert w'.granted == w.granted && w'.started == w.started;
  }

  lemma {:induction false} AlwaysRegistry(f: Format, scenario: State, disk: Option<seq<byte>>, es: seq<Event>)
    requires PossibleRun(f, scenario, Untouched(disk), es)
    ensures Registry(After(f, scenario, Untouched(disk), es))
  {
    if es != [] {
      var past := es[..|es| - 1];
      AlwaysRegistry(f, scenario, disk, past);
      NextKeepsRegistry(f, scenario, After(f, scenario, Untouched(disk), past), es[|es| - 1]);
    }
  }

  /** A greeting registers a worker name, boot id and epoch that were registered before exactly when it
      carries the running epoch, the process has not seen the boot id under that name, and an earlier
      incarnation that had the same epoch has. */
  lemma RegistersAgainExactly(w: World, payload: seq<byte>, h: Hello)
    requires Registry(w) && w.process.Some? && HelloOf(payload) == Some(h)
    ensures var p := w.process.value;
      Greet(p.epoch, p.seen, payload).1.Registered?
      && (exists i {:trigger w.granted[i]} :: 0 <= i < |w.granted|
            && w.granted[i].name == h.name && w.granted[i].boot == h.boot && w.granted[i].epoch == h.epoch)
      <==>
      && h.epoch == p.epoch && h.boot !in BootsOf(p.seen, h.name)
      && exists i {:trigger w.granted[i]} :: 0 <= i < |w.granted|
           && w.granted[i].name == h.name && w.granted[i].boot == h.boot
           && w.granted[i].incarnation < |w.started| - 1 && w.started[w.granted[i].incarnation] == p.epoch
  {}

  ghost predicate DistinctEpochs(started: seq<U64>) {
    forall i, j {:trigger started[i], started[j]} :: 0 <= i < j < |started| ==> started[i] != started[j]
  }

  /** No worker name, boot id and epoch is ever registered twice, across all incarnations, when no two
      incarnations have the same epoch. */
  lemma NeverRegisteredTwice(f: Format, scenario: State, disk: Option<seq<byte>>, es: seq<Event>, i: nat, j: nat)
    requires PossibleRun(f, scenario, Untouched(disk), es)
    requires var w := After(f, scenario, Untouched(disk), es); DistinctEpochs(w.started) && i < j < |w.granted|
    ensures var w := After(f, scenario, Untouched(disk), es);
      !(w.granted[i].name == w.granted[j].name && w.granted[i].boot == w.granted[j].boot
        && w.granted[i].epoch == w.granted[j].epoch)
  {
    AlwaysRegistry(f, scenario, disk, es);
    var w := After(f, scenario, Untouched(disk), es);
    var a, b := w.granted[i].incarnation, w.granted[j].incarnation;
    if a < b {
      assert w.started[a] != w.started[b];
    } else if b < a {
      assert w.started[b] != w.started[a];
    }
  }

  /** So it is for the coordinator as it is when each incarnation saved before the next one started. */
  lemma CoordinatorRegistersOnce(scenario: State, disk: Option<seq<byte>>, es: seq<Event>, i: nat, j: nat)
    requires scenario.epoch == 1 && Restart.Savable(scenario)
    requires PossibleRun(FileFormat(), scenario, Untouched(disk), es)
    requires AllSavesFit(FileFormat(), scenario, Untouched(disk), es, FitsFile())
    requires DiskEpoch(FileFormat().load, disk) + |es| < TWO_64
    requires var w := After(FileFormat(), scenario, Untouched(disk), es); AllSaved(w.left) && i < j < |w.granted|
    ensures var w := After(FileFormat(), scenario, Untouched(disk), es);
      !(w.granted[i].name == w.granted[j].name && w.granted[i].boot == w.granted[j].boot
        && w.granted[i].epoch == w.granted[j].epoch)
  {
    CoordinatorEpochs(scenario, disk, es);
    var w := After(FileFormat(), scenario, Untouched(disk), es);
    assert Increasing(w.started) ==> DistinctEpochs(w.started);
    NeverRegisteredTwice(FileFormat(), scenario, disk, es, i, j);
  }

  /** Two incarnations have the same epoch where one ends without having saved: the next one takes its
      epoch and admits the same worker with the same boot id again. */
  lemma RegisteredTwiceWithoutSave(f: Format, scenario: State, disk: Option<seq<byte>>, h: Hello, payload: seq<byte>)
    requires HelloOf(payload) == Some(h) && h.epoch == Booted(f.load, scenario, disk).epoch
    ensures var w1 := Next(f, scenario, Untouched(disk), Start);
      var w2 := Next(f, scenario, w1, Greeting(payload));
      var w3 := Next(f, scenario, w2, Crash);
      var w4 := Next(f, scenario, w3, Start);
      var w5 := Next(f, scenario, w4, Greeting(payload));
      w5.granted == [Grant(h.name, h.boot, h.epoch, 0), Grant(h.name, h.boot, h.epoch, 1)]
  {}

  /** So does one after a first incarnation at epoch one whose file does not load. */
  lemma RegisteredTwiceAfterSpoiltSave(f: Format, scenario: State, h: Hello, payload: seq<byte>, order: seq<U64>)
    requires scenario.epoch == 1 && HelloOf(payload) == Some(h) && h.epoch == 1
    requires Enumerates(order, scenario.accs) && f.load(f.store(Saved(scenario, order))) == None
    ensures var w1 := Next(f, scenario, Untouched(None), Start);
      var w2 := Next(f, scenario, w1, Greeting(payload));
      var w3 := Next(f, scenario, w2, Kill(order));
      var w4 := Next(f, scenario, w3, Start);
      var w5 := Next(f, scenario, w4, Greeting(payload));
      w5.granted == [Grant(h.name, h.boot, h.epoch, 0), Grant(h.name, h.boot, h.epoch, 1)]
  {}
}
