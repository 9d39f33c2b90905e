/** Public PIDs for the processes and services of every instance. */
module ProcessWorld {
  import opened Text

  const PUBLIC_PID_START := 1_000_000_000

  /** A JavaScript number used as a PID. */
  datatype Number = Integer(value: int) | NotInteger

  datatype LifoProcess = LifoProcess(pid: Number, command: string)

  datatype LifoService = LifoService(name: string, pid: Number)

  datatype Key =
    | ProcessKey(instanceId: string, localPid: nat)
    | ServiceKey(instanceId: string, localPid: nat, name: string)

  datatype Kind = Process | Service

  const NUL := '\0'

  /** Canonical instance ids hold no NUL character. */
  predicate Canonical(instanceId: string)
  {
    NUL !in instanceId
  }

  function KindOf(key: Key): Kind
  {
    if key.ProcessKey? then Process else Service
  }

  /** The string the maps are keyed by. */
  function KeyText(key: Key): string
  {
    match key
    case ProcessKey(instanceId, localPid) => "process\0" + instanceId + "\0" + Decimal(localPid)
    case ServiceKey(instanceId, localPid, name) => "service\0" + instanceId + "\0" + Decimal(localPid) + "\0" + name
  }

  // ----- Key strings are unambiguous -----

  lemma DecimalHasNoNul(n: nat)
    ensures NUL !in Decimal(n)
  {
    assert forall i :: 0 <= i < |Decimal(n)| ==> IsDigit(Decimal(n)[i]);
  }

  function KeyFields(key: Key): seq<string>
  {
    match key
    case ProcessKey(instanceId, localPid) => ["process", instanceId, Decimal(localPid)]
    case ServiceKey(instanceId, localPid, name) => ["service", instanceId, Decimal(localPid)] + Split(name, NUL)
  }

  lemma SplitTwo(a: string, b: string, rest: string)
    requires NUL !in a && NUL !in b
    ensures Split(a + [NUL] + (b + [NUL] + rest), NUL) == [a, b] + Split(rest, NUL)
  {
    SplitFirst(a, b + [NUL] + rest, NUL);
    SplitFirst(b, rest, NUL);
    assert [a] + ([b] + Split(rest, NUL)) == [a, b] + Split(rest, NUL);
  }

  lemma KeyTextSplits(key: Key)
    requires Canonical(key.instanceId)
    ensures Split(KeyText(key), NUL) == KeyFields(key)
  {
    DecimalHasNoNul(key.localPid);
    var digits := Decimal(key.localPid);
    match key
    case ProcessKey(instanceId, localPid) =>
      assert KeyText(key) == "process" + [NUL] + (instanceId + [NUL] + digits);
      SplitTwo("process", instanceId, digits);
      SplitWhole(digits, NUL);
    case ServiceKey(instanceId, localPid, name) =>
      assert KeyText(key) == "service" + [NUL] + (instanceId + [NUL] + (digits + [NUL] + name));
      SplitTwo("service", instanceId, digits + [NUL] + name);
      SplitFirst(digits, name, NUL);
      assert ["service", instanceId] + ([digits] + Split(name, NUL)) == KeyFields(key);
  }

  lemma KeyTextInjective(a: Key, b: Key)
    requires Canonical(a.instanceId) && Canonical(b.instanceId)
    requires KeyText(a) == KeyText(b)
    ensures a == b
  {
    KeyTextSplits(a);
    KeyTextSplits(b);
    var fa, fb := KeyFields(a), KeyFields(b);
    assert fa[0] == fb[0] && fa[1] == fb[1] && fa[2] == fb[2];
    assert "process" != "service" by { assert "process"[0] != "service"[0]; }
    DecimalInjective(a.localPid, b.localPid);
    if a.ServiceKey? {
      var head := "service\0" + a.instanceId + "\0" + Decimal(a.localPid) + "\0";
      assert KeyText(a) == head + a.name && KeyText(b) == head + b.name;
      assert KeyText(a)[|head|..] == a.name && KeyText(b)[|head|..] == b.name;
    }
  }

  // ----- The projection -----

  datatype Projection = Projection(nextPublicPid: int, byKey: map<string, int>, byPublicPid: map<int, Key>)

  function Empty(): Projection
  {
    Projection(PUBLIC_PID_START, map[], map[])
  }

  function AtLeast(pids: set<int>, n: int): set<int>
  {
    set p | p in pids && p >= n
  }

  /** First number from `n` on that is not in use. */
  function FirstFree(pids: set<int>, n: int): int
    decreases |AtLeast(pids, n)|
  {
    if n in pids then
      assert AtLeast(pids, n) == AtLeast(pids, n + 1) + {n};
      FirstFree(pids, n + 1)
    else n
  }

  /** Public PID of a key, allocated when it has none. */
  function Intern(s: Projection, key: Key): (Projection, int)
  {
    if KeyText(key) in s.byKey then (s, s.byKey[KeyText(key)])
    else
      var pid := FirstFree(s.byPublicPid.Keys, s.nextPublicPid);
      (Projection(pid + 1, s.byKey[KeyText(key) := pid], s.byPublicPid[pid := key]), pid)
  }

  function InternAll(s: Projection, keys: seq<Key>): (Projection, seq<int>)
  {
    if keys == [] then (s, [])
    else
      var (t, pids) := InternAll(s, keys[..|keys| - 1]);
      var (u, pid) := Intern(t, keys[|keys| - 1]);
      (u, pids + [pid])
  }

  predicate Belongs(key: Key, instanceId: string, kind: Kind)
  {
    key.instanceId == instanceId && KindOf(key) == kind
  }

  function Stale(s: Projection, instanceId: string, kind: Kind, seen: set<string>): set<string>
  {
    set k | k in s.byKey && s.byKey[k] in s.byPublicPid && Belongs(s.byPublicPid[s.byKey[k]], instanceId, kind)
            && k !in seen
  }

  function Remove(s: Projection, gone: set<string>): Projection
  {
    s.(byKey := s.byKey - gone, byPublicPid := s.byPublicPid - (set k | k in gone && k in s.byKey :: s.byKey[k]))
  }

  function Texts(keys: seq<Key>): set<string>
  {
    set i | 0 <= i < |keys| :: KeyText(keys[i])
  }

  /** The processes that get a public PID: not the shell, and a whole PID above 1. */
  function ProcessKeys(instanceId: string, processes: seq<LifoProcess>): seq<Key>
  {
    if processes == [] then []
    else
      var p := processes[|processes| - 1];
      ProcessKeys(instanceId, processes[..|processes| - 1])
      + (if p.command == "shell" || p.pid.NotInteger? || p.pid.value <= 1 then []
         else [ProcessKey(instanceId, p.pid.value)])
  }

  function ServiceKeys(instanceId: string, services: seq<LifoService>): seq<Key>
  {
    if services == [] then []
    else
      var p := services[|services| - 1];
      ServiceKeys(instanceId, services[..|services| - 1])
      + (if p.pid.NotInteger? || p.pid.value <= 0 then [] else [ServiceKey(instanceId, p.pid.value, p.name)])
  }

  function ProjectKeys(s: Projection, instanceId: string, kind: Kind, keys: seq<Key>): (Projection, seq<int>)
  {
    var (t, pids) := InternAll(s, keys);
    (Remove(t, Stale(t, instanceId, kind, Texts(keys))), pids)
  }

  function ForgetStep(s: Projection, instanceId: string): Projection
  {
    Remove(s, set k | k in s.byKey && s.byKey[k] in s.byPublicPid && s.byPublicPid[s.byKey[k]].instanceId == instanceId)
  }

  function ServicePidStep(s: Projection, instanceId: string, name: string, localPid: Number): (Projection, Option<int>)
  {
    if localPid.NotInteger? || localPid.value <= 0 then (s, None)
    else
      var (t, pid) := Intern(s, ServiceKey(instanceId, localPid.value, name));
      (t, Some(pid))
  }

  // ----- Invariant -----

  /** The two maps are inverse, and every public PID in use was issued before. */
  ghost predicate Inverse(s: Projection)
  {
    && (forall k :: k in s.byKey ==> s.byKey[k] in s.byPublicPid && KeyText(s.byPublicPid[s.byKey[k]]) == k)
    && (forall p :: p in s.byPublicPid ==>
          && KeyText(s.byPublicPid[p]) in s.byKey && s.byKey[KeyText(s.byPublicPid[p])] == p
          && PUBLIC_PID_START <= p < s.nextPublicPid
          && Canonical(s.byPublicPid[p].instanceId))
    && PUBLIC_PID_START <= s.nextPublicPid
  }

  lemma NextIsFree(s: Projection)
    requires Inverse(s)
    ensures FirstFree(s.byPublicPid.Keys, s.nextPublicPid) == s.nextPublicPid
  {
  }

  function Lookup(s: Projection, key: Key): Option<int>
  {
    if KeyText(key) in s.byKey then Some(s.byKey[KeyText(key)]) else None
  }

  function Resolve(s: Projection, pid: int): Option<Key>
  {
    if pid in s.byPublicPid then Some(s.byPublicPid[pid]) else None
  }

  /** Looking a key up and resolving a PID are inverse, so two keys never share a PID. */
  lemma LookupInvertsResolve(s: Projection, key: Key, pid: int)
    requires Inverse(s) && Canonical(key.instanceId)
    ensures Lookup(s, key) == Some(pid) <==> Resolve(s, pid) == Some(key)
  {
    if Lookup(s, key) == Some(pid) {
      KeyTextInjective(s.byPublicPid[pid], key);
    }
  }

  /** Nothing moves between two states: PIDs issued before keep their owner or are gone for good. */
  ghost predicate NoReuse(s: Projection, t: Projection)
  {
    && s.nextPublicPid <= t.nextPublicPid
    && forall p :: p in t.byPublicPid && p < s.nextPublicPid ==>
         p in s.byPublicPid && t.byPublicPid[p] == s.byPublicPid[p]
  }

  lemma InternKeepsInverse(s: Projection, key: Key)
    requires Inverse(s) && Canonical(key.instanceId)
    ensures var (t, pid) := Intern(s, key);
            && Inverse(t) && NoReuse(s, t) && Lookup(t, key) == Some(pid)
            && (Lookup(s, key).Some? ==> t == s)
  {
    NextIsFree(s);
  }

  lemma InternKeepsOthers(s: Projection, key: Key, k: Key)
    requires Canonical(key.instanceId) && Canonical(k.instanceId) && k != key
    ensures Lookup(Intern(s, key).0, k) == Lookup(s, k)
  {
    if KeyText(k) == KeyText(key) {
      KeyTextInjective(k, key);
    }
  }

  ghost predicate CanonicalKeys(keys: seq<Key>)
  {
    forall i :: 0 <= i < |keys| ==> Canonical(keys[i].instanceId)
  }

  lemma {:induction false} InternAllKeepsInverse(s: Projection, keys: seq<Key>)
    requires Inverse(s) && CanonicalKeys(keys)
    ensures var (t, pids) := InternAll(s, keys); Inverse(t) && NoReuse(s, t) && |pids| == |keys|
  {
    if keys != [] {
      var front, last := keys[..|keys| - 1], keys[|keys| - 1];
      InternAllKeepsInverse(s, front);
      InternKeepsInverse(InternAll(s, front).0, last);
    }
  }

  lemma {:induction false} InternAllEffect(s: Projection, keys: seq<Key>, key: Key)
    requires Inverse(s) && CanonicalKeys(keys) && Canonical(key.instanceId)
    ensures |InternAll(s, keys).1| == |keys|
    ensures var (t, pids) := InternAll(s, keys);
            && (key !in keys || Lookup(s, key).Some? ==> Lookup(t, key) == Lookup(s, key))
            && (forall i :: 0 <= i < |keys| && keys[i] == key ==> Lookup(t, key) == Some(pids[i]))
  {
    hide Inverse, Intern, Lookup, NoReuse, Canonical, KeyText;
    if keys != [] {
      var front, last := keys[..|keys| - 1], keys[|keys| - 1];
      InternAllKeepsInverse(s, front);
      InternAllEffect(s, front, key);
      var t := InternAll(s, front).0;
      InternKeepsInverse(t, last);
      if last != key {
        InternKeepsOthers(t, last, key);
      }
      assert keys == front + [last];
    }
  }

  lemma RemoveEffect(s: Projection, gone: set<string>)
    requires Inverse(s)
    ensures Inverse(Remove(s, gone)) && NoReuse(s, Remove(s, gone))
    ensures forall k: Key :: Lookup(Remove(s, gone), k) == if KeyText(k) in gone then None else Lookup(s, k)
  {
    var t := Remove(s, gone);
    forall k | k in t.byKey
      ensures t.byKey[k] in t.byPublicPid
    {
      assert KeyText(s.byPublicPid[s.byKey[k]]) == k;
    }
  }

  lemma StaleKeys(s: Projection, key: Key, instanceId: string, kind: Kind, seen: set<string>)
    requires Inverse(s) && Canonical(key.instanceId)
    ensures KeyText(key) in Stale(s, instanceId, kind, seen)
       <==> Lookup(s, key).Some? && Belongs(key, instanceId, kind) && KeyText(key) !in seen
  {
    if Lookup(s, key).Some? {
      var pid := s.byKey[KeyText(key)];
      assert pid in s.byPublicPid && Canonical(s.byPublicPid[pid].instanceId);
      KeyTextInjective(s.byPublicPid[pid], key);
    }
  }

  lemma SeenKeys(keys: seq<Key>, key: Key)
    requires CanonicalKeys(keys) && Canonical(key.instanceId)
    ensures KeyText(key) in Texts(keys) <==> key in keys
  {
    if KeyText(key) in Texts(keys) {
      var i :| 0 <= i < |keys| && KeyText(keys[i]) == KeyText(key);
      KeyTextInjective(keys[i], key);
    }
    if key in keys {
      var i :| 0 <= i < |keys| && keys[i] == key;
      assert KeyText(keys[i]) in Texts(keys);
    }
  }

  /** After a projection exactly the keys just seen are left of that instance and kind, each with the PID it had
      before if it had one; every other key keeps what it had. */
  lemma ProjectionIsExact(s: Projection, instanceId: string, kind: Kind, keys: seq<Key>)
    requires Inverse(s)
    requires forall i :: 0 <= i < |keys| ==> Belongs(keys[i], instanceId, kind)
    requires Canonical(instanceId)
    ensures var (t, pids) := ProjectKeys(s, instanceId, kind, keys);
            && Inverse(t) && NoReuse(s, t) && |pids| == |keys|
            && (forall i :: 0 <= i < |keys| ==> Lookup(t, keys[i]) == Some(pids[i]))
            && (forall k: Key :: Canonical(k.instanceId) && Belongs(k, instanceId, kind) ==>
                  (Lookup(t, k).Some? <==> k in keys))
            && (forall k: Key :: Canonical(k.instanceId) && Lookup(s, k).Some? && Lookup(t, k).Some? ==>
                  Lookup(t, k) == Lookup(s, k))
            && (forall k: Key :: Canonical(k.instanceId) && !Belongs(k, instanceId, kind) ==> Lookup(t, k) == Lookup(s, k))
  {
    assert CanonicalKeys(keys);
    InternAllKeepsInverse(s, keys);
    var (m, pids) := InternAll(s, keys);
    var gone := Stale(m, instanceId, kind, Texts(keys));
    RemoveEffect(m, gone);
    forall k: Key | Canonical(k.instanceId)
      ensures KeyText(k) in gone <==> Lookup(m, k).Some? && Belongs(k, instanceId, kind) && k !in keys
      ensures k !in keys || Lookup(s, k).Some? ==> Lookup(m, k) == Lookup(s, k)
      ensures forall i :: 0 <= i < |keys| && keys[i] == k ==> Lookup(m, k) == Some(pids[i])
    {
      InternAllEffect(s, keys, k);
      StaleKeys(m, k, instanceId, kind, Texts(keys));
      SeenKeys(keys, k);
    }
    forall i | 0 <= i < |keys|
      ensures Lookup(Remove(m, gone), keys[i]) == Some(pids[i])
    {
      assert keys[i] in keys;
    }
  }

  lemma {:induction false} ProcessKeysBelong(instanceId: string, processes: seq<LifoProcess>)
    ensures forall i :: 0 <= i < |ProcessKeys(instanceId, processes)| ==>
              Belongs(ProcessKeys(instanceId, processes)[i], instanceId, Process)
    ensures forall n: nat :: ProcessKey(instanceId, n) in ProcessKeys(instanceId, processes) <==>
              exists i :: 0 <= i < |processes| && processes[i].command != "shell" && processes[i].pid == Integer(n) && n > 1
  {
    if processes != [] {
      var front, p := processes[..|processes| - 1], processes[|processes| - 1];
      ProcessKeysBelong(instanceId, front);
      assert processes == front + [p];
    }
  }

  lemma {:induction false} ServiceKeysBelong(instanceId: string, services: seq<LifoService>)
    ensures forall i :: 0 <= i < |ServiceKeys(instanceId, services)| ==>
              Belongs(ServiceKeys(instanceId, services)[i], instanceId, Service)
    ensures forall n: nat, name :: ServiceKey(instanceId, n, name) in ServiceKeys(instanceId, services) <==>
              exists i :: 0 <= i < |services| && services[i] == LifoService(name, Integer(n)) && n > 0
  {
    if services != [] {
      var front, p := services[..|services| - 1], services[|services| - 1];
      ServiceKeysBelong(instanceId, front);
      assert services == front + [p];
    }
  }

  lemma ForgetEffect(s: Projection, instanceId: string)
    requires Inverse(s)
    ensures var t := ForgetStep(s, instanceId);
            && Inverse(t) && NoReuse(s, t)
            && forall k: Key :: Canonical(k.instanceId) ==>
                 Lookup(t, k) == if k.instanceId == instanceId then None else Lookup(s, k)
  {
    var gone := set k | k in s.byKey && s.byKey[k] in s.byPublicPid && s.byPublicPid[s.byKey[k]].instanceId == instanceId;
    RemoveEffect(s, gone);
    forall k: Key | Canonical(k.instanceId) && Lookup(s, k).Some?
      ensures KeyText(k) in gone <==> k.instanceId == instanceId
    {
      var pid := s.byKey[KeyText(k)];
      assert pid in s.byPublicPid && Canonical(s.byPublicPid[pid].instanceId);
      KeyTextInjective(s.byPublicPid[pid], k);
    }
  }

  // ----- Runs -----

  datatype Action =
    | Project(instanceId: string, processes: seq<LifoProcess>)
    | ProjectServices(instanceId: string, services: seq<LifoService>)
    | ProjectServicePid(instanceId: string, name: string, localPid: Number)
    | Forget(instanceId: string)

  function Step(s: Projection, a: Action): Projection
  {
    match a
    case Project(instanceId, processes) => ProjectKeys(s, instanceId, Process, ProcessKeys(instanceId, processes)).0
    case ProjectServices(instanceId, services) => ProjectKeys(s, instanceId, Service, ServiceKeys(instanceId, services)).0
    case ProjectServicePid(instanceId, name, localPid) => ServicePidStep(s, instanceId, name, localPid).0
    case Forget(instanceId) => ForgetStep(s, instanceId)
  }

  /** Process `n` of the instance is listed, is not its shell, and is not the first process. */
  predicate IsShown(processes: seq<LifoProcess>, n: nat)
  {
    n > 1 && exists i :: 0 <= i < |processes| && processes[i].command != "shell" && processes[i].pid == Integer(n)
  }

  /** What has a public PID after an action: a projection of processes is about the processes of its instance alone, one of
      services about its services, and a service asked for by its PID gets one if that is a positive whole number. */
  lemma VisibleAfter(s: Projection, a: Action, key: Key)
    requires Inverse(s) && Canonical(a.instanceId) && Canonical(key.instanceId)
    ensures var after, before := Lookup(Step(s, a), key), Lookup(s, key);
      match a
      case Project(instanceId, processes) =>
        if key.ProcessKey? && key.instanceId == instanceId then after.Some? <==> IsShown(processes, key.localPid)
        else after == before
      case ProjectServices(instanceId, services) =>
        if key.ServiceKey? && key.instanceId == instanceId
        then after.Some? <==> key.localPid > 0 && LifoService(key.name, Integer(key.localPid)) in services
        else after == before
      case ProjectServicePid(instanceId, name, localPid) =>
        if localPid.Integer? && localPid.value > 0 && key == ServiceKey(instanceId, localPid.value, name)
        then after.Some? && after == ServicePidStep(s, instanceId, name, localPid).1 && (before.Some? ==> after == before)
        else after == before
      case Forget(instanceId) => after == if key.instanceId == instanceId then None else before
  {
    hide Inverse, ForgetStep, ProjectKeys, Intern;
    match a
    case Project(instanceId, processes) =>
      ProcessKeysBelong(instanceId, processes);
      ProjectionIsExact(s, instanceId, Process, ProcessKeys(instanceId, processes));
    case ProjectServices(instanceId, services) =>
      ServiceKeysBelong(instanceId, services);
      ProjectionIsExact(s, instanceId, Service, ServiceKeys(instanceId, services));
    case ProjectServicePid(instanceId, name, localPid) =>
      if localPid.Integer? && localPid.value > 0 {
        var asked := ServiceKey(instanceId, localPid.value, name);
        InternKeepsInverse(s, asked);
        if key != asked {
          InternKeepsOthers(s, asked, key);
        }
      }
    case Forget(instanceId) =>
      ForgetEffect(s, instanceId);
  }

  /** Asking for the PID of a service is refused exactly when its local PID is not a positive whole number. */
  lemma ServicePidIsGiven(s: Projection, instanceId: string, name: string, localPid: Number)
    ensures var (t, pid) := ServicePidStep(s, instanceId, name, localPid);
      && (pid.None? <==> localPid == NotInteger || localPid.value < 1)
      && (pid.None? ==> t == s)
  {
  }

  function Run(s: Projection, actions: seq<Action>): Projection
    decreases |actions|
  {
    if actions == [] then s else Run(Step(s, actions[0]), actions[1..])
  }

  /** The action neither forgets the key's instance nor projects its kind without it. */
  predicate Spares(a: Action, key: Key)
  {
    match a
    case Project(instanceId, processes) => !Belongs(key, instanceId, Process) || key in ProcessKeys(instanceId, processes)
    case ProjectServices(instanceId, services) => !Belongs(key, instanceId, Service) || key in ServiceKeys(instanceId, services)
    case ProjectServicePid(instanceId, name, localPid) => true
    case Forget(instanceId) => key.instanceId != instanceId
  }

  lemma StepEffect(s: Projection, a: Action)
    requires Inverse(s) && Canonical(a.instanceId)
    ensures Inverse(Step(s, a)) && NoReuse(s, Step(s, a))
    ensures forall k: Key :: Canonical(k.instanceId) && Spares(a, k) && Lookup(s, k).Some? ==>
              Lookup(Step(s, a), k) == Lookup(s, k)
  {
    match a
    case Project(instanceId, processes) =>
      ProcessKeysBelong(instanceId, processes);
      ProjectionIsExact(s, instanceId, Process, ProcessKeys(instanceId, processes));
    case ProjectServices(instanceId, services) =>
      ServiceKeysBelong(instanceId, services);
      ProjectionIsExact(s, instanceId, Service, ServiceKeys(instanceId, services));
    case ProjectServicePid(instanceId, name, localPid) =>
      if localPid.Integer? && localPid.value > 0 {
        var added := ServiceKey(instanceId, localPid.value, name);
        InternKeepsInverse(s, added);
        forall k: Key | Canonical(k.instanceId) && Lookup(s, k).Some?
          ensures Lookup(Step(s, a), k) == Lookup(s, k)
        {
          if k != added {
            InternKeepsOthers(s, added, k);
          }
        }
      }
    case Forget(instanceId) =>
      ForgetEffect(s, instanceId);
  }

  /** Over any run the maps stay inverse and no public PID ever changes owner or comes back. */
  lemma {:induction false} PublicPidsAreNeverReused(s: Projection, actions: seq<Action>)
    requires Inverse(s)
    requires forall i :: 0 <= i < |actions| ==> Canonical(actions[i].instanceId)
    ensures Inverse(Run(s, actions)) && NoReuse(s, Run(s, actions))
    decreases |actions|
  {
    if actions != [] {
      StepEffect(s, actions[0]);
      PublicPidsAreNeverReused(Step(s, actions[0]), actions[1..]);
    }
  }

  /** A key seen by every projection of its instance and kind keeps its PID, whatever else happens. */
  lemma {:induction false} PublicPidIsStable(s: Projection, actions: seq<Action>, key: Key)
    requires Inverse(s) && Canonical(key.instanceId) && Lookup(s, key).Some?
    requires forall i :: 0 <= i < |actions| ==> Canonical(actions[i].instanceId) && Spares(actions[i], key)
    ensures Lookup(Run(s, actions), key) == Lookup(s, key)
    decreases |actions|
  {
    if actions != [] {
      StepEffect(s, actions[0]);
      PublicPidIsStable(Step(s, actions[0]), actions[1..], key);
    }
  }

  lemma EmptyIsInverse()
    ensures Inverse(Empty())
  {
  }

  lemma RemoveOneMore(s: Projection, gone: set<string>, key: string)
    requires Inverse(s) && gone <= s.byKey.Keys && key in s.byKey
    ensures Remove(s, gone + {key}) ==
            Projection(s.nextPublicPid, Remove(s, gone).byKey - {key}, Remove(s, gone).byPublicPid - {s.byKey[key]})
  {
    assert s.byKey - (gone + {key}) == (s.byKey - gone) - {key};
    var pids := set k | k in gone && k in s.byKey :: s.byKey[k];
    var more := set k | k in gone + {key} && k in s.byKey :: s.byKey[k];
    assert more == pids + {s.byKey[key]};
    assert s.byPublicPid - more == (s.byPublicPid - pids) - {s.byKey[key]};
  }

  lemma TextsSnoc(keys: seq<Key>, key: Key)
    ensures Texts(keys + [key]) == Texts(keys) + {KeyText(key)}
  {
    var all := keys + [key];
    forall i | 0 <= i < |keys|
      ensures KeyText(keys[i]) in Texts(all)
    {
      assert all[i] == keys[i];
    }
    assert all[|keys|] == key;
    assert Texts(all) <= Texts(keys) + {KeyText(key)};
  }

  // ----- The class -----

  class LifoProcessProjection {
    var nextPublicPid: int
    var byKey: map<string, int>
    var byPublicPid: map<int, Key>

    ghost function View(): Projection
      reads this
    {
      Projection(nextPublicPid, byKey, byPublicPid)
    }

    constructor ()
      ensures View() == Empty() && Inverse(View())
    {
      nextPublicPid, byKey, byPublicPid := PUBLIC_PID_START, map[], map[];
    }

    method AllocatePublicPid() returns (pid: int)
      modifies this`nextPublicPid
      ensures pid == FirstFree(byPublicPid.Keys, old(nextPublicPid)) && nextPublicPid == pid + 1
    {
      while nextPublicPid in byPublicPid
        invariant FirstFree(byPublicPid.Keys, nextPublicPid) == FirstFree(byPublicPid.Keys, old(nextPublicPid))
        decreases |AtLeast(byPublicPid.Keys, nextPublicPid)|
      {
        assert AtLeast(byPublicPid.Keys, nextPublicPid) == AtLeast(byPublicPid.Keys, nextPublicPid + 1) + {nextPublicPid};
        nextPublicPid := nextPublicPid + 1;
      }
      pid := nextPublicPid;
      nextPublicPid := nextPublicPid + 1;
    }

    method PublicPidOf(key: Key) returns (pid: int)
      modifies this
      ensures (View(), pid) == Intern(old(View()), key)
    {
      var text := KeyText(key);
      if text in byKey {
        return byKey[text];
      }
      pid := AllocatePublicPid();
      byKey := byKey[text := pid];
      byPublicPid := byPublicPid[pid := key];
    }

    method Project(instanceId: string, processes: seq<LifoProcess>) returns (pids: seq<int>)
      requires Inverse(View()) && Canonical(instanceId)
      modifies this
      ensures (View(), pids) == ProjectKeys(old(View()), instanceId, Process, ProcessKeys(instanceId, processes))
      ensures Inverse(View())
    {
      ghost var before := View();
      var seen: set<string> := {};
      pids := [];
      var i := 0;
      while i < |processes|
        invariant 0 <= i <= |processes|
        invariant seen == Texts(ProcessKeys(instanceId, processes[..i]))
        invariant (View(), pids) == InternAll(before, ProcessKeys(instanceId, processes[..i]))
      {
        var process := processes[i];
        ghost var keys := ProcessKeys(instanceId, processes[..i]);
        assert processes[..i + 1][..i] == processes[..i];
        assert keys + [] == keys;
        i := i + 1;
        if process.command == "shell" || process.pid.NotInteger? || process.pid.value <= 1 {
          continue;
        }
        var key := ProcessKey(instanceId, process.pid.value);
        seen := seen + {KeyText(key)};
        TextsSnoc(keys, key);
        assert (keys + [key])[..|keys|] == keys;
        var pid := PublicPidOf(key);
        pids := pids + [pid];
      }
      assert processes[..i] == processes;
      ProcessKeysBelong(instanceId, processes);
      InternAllKeepsInverse(before, ProcessKeys(instanceId, processes));
      PruneKind(instanceId, Process, seen);
      ProjectionIsExact(before, instanceId, Process, ProcessKeys(instanceId, processes));
    }

    method ProjectServices(instanceId: string, services: seq<LifoService>) returns (pids: seq<int>)
      requires Inverse(View()) && Canonical(instanceId)
      modifies this
      ensures (View(), pids) == ProjectKeys(old(View()), instanceId, Service, ServiceKeys(instanceId, services))
      ensures Inverse(View())
    {
      ghost var before := View();
      var seen: set<string> := {};
      pids := [];
      var i := 0;
      while i < |services|
        invariant 0 <= i <= |services|
        invariant seen == Texts(ServiceKeys(instanceId, services[..i]))
        invariant (View(), pids) == InternAll(before, ServiceKeys(instanceId, services[..i]))
      {
        var service := services[i];
        ghost var keys := ServiceKeys(instanceId, services[..i]);
        assert services[..i + 1][..i] == services[..i];
        assert keys + [] == keys;
        i := i + 1;
        if service.pid.NotInteger? || service.pid.value <= 0 {
          continue;
        }
        var key := ServiceKey(instanceId, service.pid.value, service.name);
        seen := seen + {KeyText(key)};
        TextsSnoc(keys, key);
        assert (keys + [key])[..|keys|] == keys;
        var pid := PublicPidOf(key);
        pids := pids + [pid];
      }
      assert services[..i] == services;
      ServiceKeysBelong(instanceId, services);
      InternAllKeepsInverse(before, ServiceKeys(instanceId, services));
      PruneKind(instanceId, Service, seen);
      ProjectionIsExact(before, instanceId, Service, ServiceKeys(instanceId, services));
    }

    method ProjectServicePid(instanceId: string, name: string, localPid: Number) returns (pid: Option<int>)
      modifies this
      ensures (View(), pid) == ServicePidStep(old(View()), instanceId, name, localPid)
    {
      if localPid.NotInteger? || localPid.value <= 0 {
        return None;
      }
      var p := PublicPidOf(ServiceKey(instanceId, localPid.value, name));
      pid := Some(p);
    }

    method ForgetInstance(instanceId: string)
      requires Inverse(View())
      modifies this
      ensures View() == ForgetStep(old(View()), instanceId)
    {
      ghost var gone := set k | k in byKey && byKey[k] in byPublicPid && byPublicPid[byKey[k]].instanceId == instanceId;
      RemoveMatching((key: Key) => key.instanceId == instanceId, {}, gone);
    }

    method PruneKind(instanceId: string, kind: Kind, seen: set<string>)
      requires Inverse(View())
      modifies this
      ensures View() == Remove(old(View()), Stale(old(View()), instanceId, kind, seen))
    {
      RemoveMatching((key: Key) => Belongs(key, instanceId, kind), seen, Stale(View(), instanceId, kind, seen));
    }

    /** Iterates over the keys and deletes from both maps on the way. */
    method RemoveMatching(matches: Key -> bool, seen: set<string>, ghost gone: set<string>)
      requires Inverse(View())
      requires gone == set k | k in byKey && byKey[k] in byPublicPid && matches(byPublicPid[byKey[k]]) && k !in seen
      modifies this
      ensures View() == Remove(old(View()), gone)
    {
      var left := byKey.Keys;
      ghost var before := View();
      ghost var done: set<string> := {};
      while left != {}
        invariant left !! done && left + done == before.byKey.Keys
        invariant View() == Remove(before, gone * done)
        decreases left
      {
        var key :| key in left;
        assert key in byKey && byKey[key] == before.byKey[key];
        var publicPid := byKey[key];
        forall k | k in gone * done
          ensures before.byKey[k] != publicPid
        {
          assert KeyText(before.byPublicPid[before.byKey[k]]) == k;
        }
        if publicPid in byPublicPid && matches(byPublicPid[publicPid]) && key !in seen {
          assert key in gone;
          RemoveOneMore(before, gone * done, key);
          assert gone * (done + {key}) == gone * done + {key};
          byKey := byKey - {key};
          byPublicPid := byPublicPid - {publicPid};
        } else {
          assert gone * (done + {key}) == gone * done;
        }
        left, done := left - {key}, done + {key};
      }
      assert gone * done == gone;
    }
  }
}
