/** The atomic publication boundary between serial tasks and readers. */
module Points {
  import opened Basics

  datatype DataType = Boolean | UInt32 | Float | Double | Text

  /** Floats are their IEEE 754 bit patterns, text its UTF-8 bytes. */
  datatype Value =
    | BooleanValue(b: bool)
    | UInt32Value(n: nat)
    | FloatValue(bits32: nat)
    | DoubleValue(bits64: nat)
    | TextValue(utf8: Bytes)
  {
    function Type(): DataType {
      match this
      case BooleanValue(_) => Boolean
      case UInt32Value(_) => UInt32
      case FloatValue(_) => Float
      case DoubleValue(_) => Double
      case TextValue(_) => Text
    }

    /** Finite floats and text of at most 16 KiB. */
    predicate Valid() {
      match this
      case FloatValue(bits) => bits / 0x80_0000 % 0x100 != 0xff
      case DoubleValue(bits) => bits / 0x10_0000_0000_0000 % 0x800 != 0x7ff
      case TextValue(utf8) => |utf8| <= 16 * 1024
      case _ => true
    }
  }

  /** Infinities and NaNs are not valid, and a text of more than 16 KiB is not. */
  lemma ValidMeaning(v: Value)
    ensures v.FloatValue? && v.bits32 < 0x1_0000_0000 ==> (v.Valid() <==> v.bits32 % 0x8000_0000 < 0x7f80_0000)
    ensures v.DoubleValue? && v.bits64 < 0x1_0000_0000_0000_0000 ==>
              (v.Valid() <==> v.bits64 % 0x8000_0000_0000_0000 < 0x7ff0_0000_0000_0000)
    ensures v.TextValue? ==> (v.Valid() <==> |v.utf8| <= 16384)
    ensures v.BooleanValue? || v.UInt32Value? ==> v.Valid()
  {
  }

  /** False, nothing, or empty. */
  predicate Null(v: Value) {
    v in {BooleanValue(false), UInt32Value(0), FloatValue(0), DoubleValue(0), TextValue([])}
  }

  function Zero(t: DataType): (v: Value)
    ensures v.Type() == t && v.Valid() && Null(v)
  {
    match t
    case Boolean => BooleanValue(false)
    case UInt32 => UInt32Value(0)
    case Float => FloatValue(0)
    case Double => DoubleValue(0)
    case Text => TextValue([])
  }

  datatype Quality = Good | Waiting | NoCommunication | Configuration | OutOfService

  datatype Sample = Sample(value: Value, quality: Quality, time: Option<nat>)

  datatype Update = Update(name: string, value: Value, quality: Quality)

  datatype Definition = Definition(name: string, task: string, dataType: DataType)

  datatype Task = Task(id: string, enabled: bool, pending: bool)

  datatype Port = Port(enabled: bool, tasks: seq<Task>)

  /** A sample shows an update stored at `at`: its value if that is Good, and otherwise nothing. */
  predicate Reflects(s: Sample, u: Update, at: nat) {
    && s.quality == u.quality && s.time == Some(at) && s.value.Type() == u.value.Type()
    && if u.quality == Good then s.value == u.value else Null(s.value)
  }

  /** What one update leaves behind: only a Good value survives. */
  function Stored(u: Update, now: nat): (s: Sample)
    ensures s.quality != Good ==> s.value == Zero(s.value.Type())
    ensures Reflects(s, u, now)
  {
    Sample(if u.quality == Good then u.value else Zero(u.value.Type()), u.quality, Some(now))
  }

  /** The samples after a batch, update by update. */
  function Overlaid(samples: map<string, Sample>, updates: seq<Update>, now: nat): map<string, Sample> {
    if updates == [] then samples
    else
      var u := updates[|updates| - 1];
      Overlaid(samples, updates[..|updates| - 1], now)[u.name := Stored(u, now)]
  }

  /** The samples after a failure of the listed points. */
  function FailedAt(samples: map<string, Sample>, names: seq<string>, quality: Quality): map<string, Sample> {
    map n | n in samples :: if n in names then Failed(samples[n], quality) else samples[n]
  }

  function Failed(s: Sample, quality: Quality): Sample {
    Sample(Zero(s.value.Type()), quality, s.time)
  }

  /** The update in a batch that names the point. */
  predicate Names(updates: seq<Update>, name: string) {
    exists i :: 0 <= i < |updates| && updates[i].name == name
  }

  predicate Distinct(updates: seq<Update>) {
    forall i, j :: 0 <= i < j < |updates| ==> updates[i].name != updates[j].name
  }

  predicate Fits(definitions: map<string, Definition>, task: string, u: Update) {
    && u.name in definitions && definitions[u.name].task == task
    && definitions[u.name].dataType == u.value.Type() && u.value.Valid()
  }

  /** The points a task owns. */
  function Owned(definitions: map<string, Definition>, task: string): set<string> {
    set n | n in definitions && definitions[n].task == task
  }

  /** A batch the store accepts: every point of the task, once, well typed, and nothing else. */
  predicate Complete(definitions: map<string, Definition>, task: string, updates: seq<Update>) {
    && (forall i :: 0 <= i < |updates| ==> Fits(definitions, task, updates[i]))
    && Distinct(updates)
    && (forall n :: n in Owned(definitions, task) ==> Names(updates, n))
  }

  function NameSet(updates: seq<Update>): set<string> {
    set i | 0 <= i < |updates| :: updates[i].name
  }

  lemma NameSetSize(updates: seq<Update>)
    requires Distinct(updates)
    ensures |NameSet(updates)| == |updates|
  {
    var names := seq(|updates|, i requires 0 <= i < |updates| => updates[i].name);
    MembersSize(names);
    assert NameSet(updates) == Members(names) by {
      assert forall i :: 0 <= i < |names| ==> names[i] == updates[i].name;
    }
  }

  /** Counting alone makes an accepted batch cover the task: names are distinct, owned, and as many
      as the task lists, so none is missing. */
  lemma CountsCover(definitions: map<string, Definition>, task: string, names: seq<string>, updates: seq<Update>)
    requires |updates| == |names| && Distinct(updates)
    requires forall i :: 0 <= i < |updates| ==> Fits(definitions, task, updates[i])
    requires forall n :: n in Owned(definitions, task) ==> n in names
    ensures Complete(definitions, task, updates)
  {
    var given, owned, listed := NameSet(updates), Owned(definitions, task), Members(names);
    NameSetSize(updates);
    MembersSize(names);
    SubsetSize(given, owned);
    SubsetSize(owned, listed);
  }

  /** And conversely where the task lists its points without repetition. */
  lemma CoverCounts(definitions: map<string, Definition>, task: string, names: seq<string>, updates: seq<Update>)
    requires Complete(definitions, task, updates)
    requires forall n :: n in names <==> n in Owned(definitions, task)
    requires Unique(names)
    ensures |updates| == |names|
  {
    NameSetSize(updates);
    MembersSize(names);
    assert NameSet(updates) == Members(names);
  }

  /** The validation pass of `publish`: nothing is stored before the whole batch has been checked. */
  method CheckBatch(definitions: map<string, Definition>, task: string, updates: seq<Update>) returns (ok: bool)
    ensures ok <==> Distinct(updates) && forall i :: 0 <= i < |updates| ==> Fits(definitions, task, updates[i])
  {
    var seen: set<string> := {};
    for i := 0 to |updates|
      invariant seen == NameSet(updates[..i]) && Distinct(updates[..i])
      invariant forall j :: 0 <= j < i ==> Fits(definitions, task, updates[j])
    {
      var u := updates[i];
      assert updates[..i + 1] == updates[..i] + [u];
      if !Fits(definitions, task, u) || u.name in seen {
        assert u.name in seen ==> exists j :: 0 <= j < i && updates[j].name == updates[i].name;
        return false;
      }
      assert forall j :: 0 <= j < i ==> updates[..i][j].name in seen;
      seen := seen + {u.name};
    }
    assert updates[..|updates|] == updates;
    ok := true;
  }

  /** A batch with distinct names stores each of its updates and touches nothing else. */
  lemma {:induction false} OverlaidMeaning(samples: map<string, Sample>, updates: seq<Update>, now: nat)
    requires Distinct(updates) && forall i :: 0 <= i < |updates| ==> updates[i].name in samples
    ensures var r := Overlaid(samples, updates, now);
      && (forall n :: n in r <==> n in samples)
      && (forall i :: 0 <= i < |updates| ==> Reflects(r[updates[i].name], updates[i], now))
      && (forall i :: 0 <= i < |updates| ==> r[updates[i].name] == Stored(updates[i], now))
      && (forall n :: n in samples && !Names(updates, n) ==> r[n] == samples[n])
    decreases |updates|
  {
    hide Zero, Stored, Names, Reflects;
    if updates != [] {
      var init, u := updates[..|updates| - 1], updates[|updates| - 1];
      OverlaidMeaning(samples, init, now);
      NamesStep(updates);
      assert forall i :: 0 <= i < |init| ==> updates[i] == init[i] && updates[i].name != u.name;
    }
  }

  lemma NamesStep(updates: seq<Update>)
    requires updates != []
    ensures forall n :: Names(updates, n) <==> Names(updates[..|updates| - 1], n) || n == updates[|updates| - 1].name
  {
    var init := updates[..|updates| - 1];
    forall n ensures Names(updates, n) <==> Names(init, n) || n == updates[|updates| - 1].name {
      if Names(init, n) {
        var i :| 0 <= i < |init| && init[i].name == n;
        assert updates[i].name == n;
      }
      if Names(updates, n) {
        var i :| 0 <= i < |updates| && updates[i].name == n;
        if i < |init| { assert init[i].name == n; }
      }
    }
  }

  /** The storing pass of `publish`. */
  method StoreAll(samples: map<string, Sample>, updates: seq<Update>, now: nat) returns (r: map<string, Sample>)
    requires Distinct(updates) && forall i :: 0 <= i < |updates| ==> updates[i].name in samples
    ensures r == Overlaid(samples, updates, now) && r.Keys == samples.Keys
    ensures forall i :: 0 <= i < |updates| ==> r[updates[i].name] == Stored(updates[i], now) && Reflects(r[updates[i].name], updates[i], now)
    ensures forall n :: n in samples && !Names(updates, n) ==> r[n] == samples[n]
  {
    r := samples;
    hide Zero, Stored, Reflects;
    for i := 0 to |updates|
      invariant r == Overlaid(samples, updates[..i], now)
    {
      assert updates[..i + 1][..i] == updates[..i];
      r := r[updates[i].name := Stored(updates[i], now)];
    }
    assert updates[..|updates|] == updates;
    OverlaidMeaning(samples, updates, now);
    assert r.Keys == samples.Keys;
  }

  // ---------------------------------------------------------------------- configuration

  function QualityFor(port: Port, task: Task): (q: Quality)
    ensures q != Good
  {
    if !port.enabled || !task.enabled then OutOfService else if task.pending then Configuration else Waiting
  }

  function WithTasks(initial: map<string, Quality>, port: Port, k: nat): map<string, Quality>
    requires k <= |port.tasks|
  {
    if k == 0 then initial
    else WithTasks(initial, port, k - 1)[port.tasks[k - 1].id := QualityFor(port, port.tasks[k - 1])]
  }

  /** The quality each configured task's points start with. */
  function InitialQualities(ports: seq<Port>): map<string, Quality> {
    if ports == [] then map[]
    else WithTasks(InitialQualities(ports[..|ports| - 1]), ports[|ports| - 1], |ports[|ports| - 1].tasks|)
  }

  /** A point of a task that is not configured waits for configuration. */
  function FirstSample(d: Definition, initial: map<string, Quality>): Sample {
    Sample(Zero(d.dataType), if d.task in initial then initial[d.task] else Configuration, None)
  }

  function Defined(points: seq<Definition>): map<string, Definition> {
    if points == [] then map[] else Defined(points[..|points| - 1])[points[|points| - 1].name := points[|points| - 1]]
  }

  /** The names a task lists, in configuration order. */
  function Listed(points: seq<Definition>, task: string): seq<string> {
    if points == [] then []
    else
      var p := points[|points| - 1];
      Listed(points[..|points| - 1], task) + if p.task == task then [p.name] else []
  }

  /** None of a port's first `k` entries from `j` on names the task. */
  ghost predicate Unnamed(port: Port, task: string, j: nat, k: nat) {
    forall i :: j <= i < k && i < |port.tasks| ==> port.tasks[i].id != task
  }

  /** Entry `k` of port `p` names the task, and no later entry does. */
  ghost predicate LastEntry(ports: seq<Port>, task: string, p: nat, k: nat) {
    && p < |ports| && k < |ports[p].tasks| && ports[p].tasks[k].id == task && Unnamed(ports[p], task, k + 1, |ports[p].tasks|)
    && forall q :: p < q < |ports| ==> Unnamed(ports[q], task, 0, |ports[q].tasks|)
  }

  lemma {:induction false} WithTasksLast(initial: map<string, Quality>, port: Port, k: nat, task: string, j: nat)
    requires j < k <= |port.tasks| && port.tasks[j].id == task && Unnamed(port, task, j + 1, k)
    ensures task in WithTasks(initial, port, k) && WithTasks(initial, port, k)[task] == QualityFor(port, port.tasks[j])
    decreases k
  {
    hide QualityFor;
    if j < k - 1 { WithTasksLast(initial, port, k - 1, task, j); }
  }

  lemma {:induction false} WithTasksOther(initial: map<string, Quality>, port: Port, k: nat, task: string)
    requires k <= |port.tasks| && Unnamed(port, task, 0, k)
    ensures var r := WithTasks(initial, port, k); (task in r <==> task in initial) && (task in r ==> r[task] == initial[task])
    decreases k
  {
    hide QualityFor;
    if k > 0 { WithTasksOther(initial, port, k - 1, task); }
  }

  /** The last entry that names a task decides: out of service if it or its port is disabled, else waiting
      for configuration if that is pending, else for data. */
  lemma {:induction false} InitialMeaning(ports: seq<Port>, task: string, p: nat, k: nat)
    requires LastEntry(ports, task, p, k)
    ensures task in InitialQualities(ports)
    ensures var port, entry, q := ports[p], ports[p].tasks[k], InitialQualities(ports)[task];
      && (q == OutOfService <==> !(port.enabled && entry.enabled))
      && (q == Configuration <==> port.enabled && entry.enabled && entry.pending)
      && (q == Waiting <==> port.enabled && entry.enabled && !entry.pending)
    decreases |ports|
  {
    var n := |ports| - 1;
    var init, port := ports[..n], ports[n];
    hide WithTasks, Unnamed;
    if p == n {
      WithTasksLast(InitialQualities(init), port, |port.tasks|, task, k);
    } else {
      InitialMeaning(init, task, p, k);
      WithTasksOther(InitialQualities(init), port, |port.tasks|, task);
    }
  }

  /** A task that no entry names has no quality, and its points wait for configuration. */
  lemma {:induction false} UnnamedWaits(ports: seq<Port>, d: Definition)
    requires forall p :: 0 <= p < |ports| ==> Unnamed(ports[p], d.task, 0, |ports[p].tasks|)
    ensures d.task !in InitialQualities(ports)
    ensures FirstSample(d, InitialQualities(ports)).quality == Configuration
    decreases |ports|
  {
    if ports != [] {
      var n := |ports| - 1;
      hide WithTasks, Unnamed;
      UnnamedWaits(ports[..n], d);
      WithTasksOther(InitialQualities(ports[..n]), ports[n], |ports[n].tasks|, d.task);
    }
  }

  lemma {:induction false} WithTasksNeverGood(initial: map<string, Quality>, port: Port, k: nat)
    requires k <= |port.tasks| && forall t :: t in initial ==> initial[t] != Good
    ensures forall t :: t in WithTasks(initial, port, k) ==> WithTasks(initial, port, k)[t] != Good
    decreases k
  {
    if k > 0 { WithTasksNeverGood(initial, port, k - 1); }
  }

  lemma {:induction false} InitialNeverGood(ports: seq<Port>)
    ensures forall t :: t in InitialQualities(ports) ==> InitialQualities(ports)[t] != Good
    decreases |ports|
  {
    if ports != [] {
      var init, port := ports[..|ports| - 1], ports[|ports| - 1];
      InitialNeverGood(init);
      WithTasksNeverGood(InitialQualities(init), port, |port.tasks|);
    }
  }

  lemma {:induction false} DefinedListed(points: seq<Definition>)
    ensures forall n :: n in Defined(points) ==> n in Listed(points, Defined(points)[n].task)
    ensures forall i :: 0 <= i < |points| ==> points[i].name in Defined(points)
    decreases |points|
  {
    if points != [] {
      var init := points[..|points| - 1];
      DefinedListed(init);
      forall i | 0 <= i < |points| ensures points[i].name in Defined(points) {
        if i < |init| { assert init[i] == points[i]; }
      }
    }
  }

  class PointStore {
    var definitions: map<string, Definition>
    var tasks: map<string, seq<string>>
    var samples: map<string, Sample>

    ghost predicate Valid()
      reads this
    {
      && samples.Keys == definitions.Keys
      && (forall n :: n in samples ==> samples[n].value.Type() == definitions[n].dataType)
      && (forall n :: n in samples && samples[n].quality != Good ==> samples[n].value == Zero(definitions[n].dataType))
      && (forall n :: n in definitions && definitions[n].task in tasks ==> n in tasks[definitions[n].task])
    }

    /** Every point starts at its type's zero with the quality its task's configuration gives. */
    constructor (ports: seq<Port>, points: seq<Definition>)
      ensures Valid() && definitions == Defined(points) && samples.Keys == definitions.Keys
      ensures tasks.Keys == InitialQualities(ports).Keys && forall t :: t in tasks ==> tasks[t] == Listed(points, t)
      ensures forall n :: n in samples ==>
                samples[n] == FirstSample(definitions[n], InitialQualities(ports))
      ensures forall n :: n in samples ==> Null(samples[n].value) && samples[n].time == None
      ensures forall n :: n in samples && definitions[n].task in InitialQualities(ports) ==>
                samples[n].quality == InitialQualities(ports)[definitions[n].task]
      ensures forall n :: n in samples ==> samples[n].quality != Good
    {
      var listed, initial := ListTasks(ports);
      var defined, names, first := DefinePoints(points, listed, initial);
      DefinedListed(points);
      InitialNeverGood(ports);
      definitions, tasks, samples := defined, names, first;
    }

    static method DefinePoints(points: seq<Definition>, listed: map<string, seq<string>>, initial: map<string, Quality>)
      returns (defined: map<string, Definition>, names: map<string, seq<string>>, first: map<string, Sample>)
      requires listed.Keys == initial.Keys && forall t :: t in listed ==> listed[t] == []
      ensures defined == Defined(points) && names.Keys == initial.Keys && first.Keys == defined.Keys
      ensures forall t :: t in names ==> names[t] == Listed(points, t)
      ensures forall n :: n in first ==> first[n] == FirstSample(defined[n], initial)
    {
      defined, names, first := map[], listed, map[];
      hide Zero, FirstSample;
      for i := 0 to |points|
        invariant names.Keys == initial.Keys && defined == Defined(points[..i]) && first.Keys == defined.Keys
        invariant forall t :: t in names ==> names[t] == Listed(points[..i], t)
        invariant forall n :: n in first ==> first[n] == FirstSample(defined[n], initial)
      {
        var point := points[i];
        assert points[..i + 1][..i] == points[..i];
        if point.task in names {
          names := names[point.task := names[point.task] + [point.name]];
        }
        first := first[point.name := FirstSample(point, initial)];
        defined := defined[point.name := point];
      }
      assert points[..|points|] == points;
    }

    static method ListTasks(ports: seq<Port>) returns (listed: map<string, seq<string>>, initial: map<string, Quality>)
      ensures initial == InitialQualities(ports) && listed.Keys == initial.Keys
      ensures forall t :: t in listed ==> listed[t] == []
    {
      listed, initial := map[], map[];
      for p := 0 to |ports|
        invariant initial == InitialQualities(ports[..p]) && listed.Keys == initial.Keys
        invariant forall t :: t in listed ==> listed[t] == []
      {
        var port := ports[p];
        assert ports[..p + 1][..p] == ports[..p];
        for k := 0 to |port.tasks|
          invariant initial == WithTasks(InitialQualities(ports[..p]), port, k) && listed.Keys == initial.Keys
          invariant forall t :: t in listed ==> listed[t] == []
        {
          listed := listed[port.tasks[k].id := []];
          initial := initial[port.tasks[k].id := QualityFor(port, port.tasks[k])];
        }
      }
      assert ports[..|ports|] == ports;
    }

    /** A non-Good sample always shows its type's zero. */
    method Read(name: string) returns (r: Option<Sample>)
      requires Valid()
      ensures r.Some? <==> name in definitions
      ensures r.Some? ==> r.value == samples[name]
      ensures r.Some? && r.value.quality != Good ==> Null(r.value.value) && r.value.value.Type() == definitions[name].dataType
    {
      r := if name in samples then Some(samples[name]) else None;
    }

    /** All or nothing: an accepted batch replaces each point of the task, once, and no other. */
    method Publish(task: string, updates: seq<Update>, now: nat) returns (ok: bool)
      requires Valid()
      modifies this`samples
      ensures Valid()
      ensures ok <==> task in tasks && |tasks[task]| == |updates| && Complete(definitions, task, updates)
      ensures !ok ==> samples == old(samples)
      ensures ok ==> samples == Overlaid(old(samples), updates, now)
      ensures ok ==> forall i :: 0 <= i < |updates| ==> updates[i].name in samples && Reflects(samples[updates[i].name], updates[i], now)
      ensures ok ==> forall n :: n in samples && n !in Owned(definitions, task) ==> n in old(samples) && samples[n] == old(samples)[n]
      ensures ok ==> forall n :: n in Owned(definitions, task) ==> n in samples && samples[n].time == Some(now)
    {
      if task !in tasks || |tasks[task]| != |updates| { return false; }
      var sound := CheckBatch(definitions, task, updates);
      if !sound { return false; }
      CountsCover(definitions, task, tasks[task], updates);
      samples := StoreAll(samples, updates, now);
      ok := true;
    }

    /** Every point the task lists turns to zero with the failure's quality; times stay. */
    method Fail(task: string, quality: Quality) returns (ok: bool)
      requires Valid()
      modifies this`samples
      ensures Valid()
      ensures ok <==> quality != Good && task in tasks
      ensures !ok ==> samples == old(samples)
      ensures ok ==> samples == FailedAt(old(samples), tasks[task], quality)
      ensures ok ==> forall n :: n in tasks[task] && n in samples ==>
                n in old(samples) && samples[n].quality == quality && Null(samples[n].value)
                && samples[n].value.Type() == old(samples)[n].value.Type() && samples[n].time == old(samples)[n].time
      ensures ok ==> forall n :: n in samples && n !in tasks[task] ==> n in old(samples) && samples[n] == old(samples)[n]
      ensures ok ==> forall n :: n in Owned(definitions, task) ==> n in samples && samples[n].quality == quality
    {
      if quality == Good || task !in tasks { return false; }
      var names := tasks[task];
      for i := 0 to |names|
        invariant samples.Keys == old(samples).Keys
        invariant forall n :: n in samples ==>
          samples[n] == if n in names[..i] then Failed(old(samples)[n], quality) else old(samples)[n]
      {
        assert names[..i + 1] == names[..i] + [names[i]];
        if names[i] in samples {
          samples := samples[names[i] := Failed(samples[names[i]], quality)];
        }
      }
      assert names[..|names|] == names;
      assert samples == FailedAt(old(samples), names, quality);
      ok := true;
    }
  }
}
