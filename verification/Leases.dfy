/** The address/port lease table, shared by the thread that adds leases and the one that sweeps expired ones. */
module Leases {

  const MAX_AP_CONNECTION: nat := 10
  const EXPIRE_TIME: int := 600
  const START_PORT: nat := 8081

  /** One entry of `ap_connection_info_list`; a lease is active when its time is not 0. */
  datatype Slot = Slot(ip_addr: string, port: nat, time: nat)

  datatype Rule = Nat(ip: string, port: nat, tcp: bool) | Filter(ip: string, tcp: bool)

  /** The rules a lease stands for, in the order in which they are installed. */
  function RuleOf(ip: string, port: nat, n: nat): Rule {
    if n == 0 then Nat(ip, port, false)
    else if n == 1 then Nat(ip, port, true)
    else Filter(ip, n == 3)
  }

  /** Those from the `n`th on. */
  function RulesFrom(ip: string, port: nat, n: nat): multiset<Rule>
    requires n <= 4
    decreases 4 - n
  {
    if n == 4 then multiset{} else multiset{RuleOf(ip, port, n)} + RulesFrom(ip, port, n + 1)
  }

  /** Those before the `n`th. */
  function RulesUpTo(ip: string, port: nat, n: nat): multiset<Rule>
    requires n <= 4
  {
    if n == 0 then multiset{} else RulesUpTo(ip, port, n - 1) + multiset{RuleOf(ip, port, n - 1)}
  }

  function RulesOf(s: Slot): multiset<Rule> { if s.time == 0 then multiset{} else RulesFrom(s.ip_addr, s.port, 0) }

  function AllRules(table: seq<Slot>): multiset<Rule> {
    if table == [] then multiset{} else RulesOf(table[0]) + AllRules(table[1..])
  }

  predicate Expired(s: Slot, cur: nat) { s.time != 0 && cur as int - s.time > EXPIRE_TIME }

  function Cleared(s: Slot): Slot { Slot("", s.port, 0) }

  /** An adding thread between leaving its critical section and installing the last of its four rules. */
  datatype Install = Idle | Installing(slot: nat, ip: string, port: nat, done: nat)

  function Missing(i: Install): multiset<Rule>
    requires i.Installing? ==> i.done <= 4
  {
    match i
    case Idle => multiset{}
    case Installing(_, ip, port, done) => RulesFrom(ip, port, done)
  }

  /** The sweeping thread: outside its critical section, or at a slot of which `done` rules have been deleted. */
  datatype Monitor = Watching | Sweeping(cur: nat, slot: nat, done: nat)

  /** The rules already deleted of the slot that is being dropped. */
  function Deleted(table: seq<Slot>, m: Monitor): multiset<Rule>
    requires m.Sweeping? ==> m.done <= 4
  {
    if m.Sweeping? && m.slot < |table| then RulesUpTo(table[m.slot].ip_addr, table[m.slot].port, m.done) else multiset{}
  }

  /** What a whole sweep does to a slot. */
  function Swept(s: Slot, cur: nat): Slot { if Expired(s, cur) then Cleared(s) else s }

  // ----- properties of the table

  ghost predicate OwnPorts(table: seq<Slot>) {
    forall i :: 0 <= i < |table| ==> table[i].port == START_PORT + i
  }

  ghost predicate OneLeaseEach(table: seq<Slot>) {
    forall i, j :: 0 <= i < j < |table| && table[i].time != 0 && table[j].time != 0 ==>
      table[i].ip_addr != table[j].ip_addr
  }

  lemma Cancel(a: multiset<Rule>, b: multiset<Rule>, r: multiset<Rule>)
    requires a + r == b + r
    ensures a == b
  {
    assert a == (a + r) - r && b == (b + r) - r;
  }

  lemma SumsAgree(a: multiset<Rule>, b: multiset<Rule>, c: multiset<Rule>, d: multiset<Rule>, e: multiset<Rule>)
    requires b + c == d + e
    ensures a + b + c == a + d + e
  {
    assert a + b + c == a + (b + c) && a + d + e == a + (d + e);
  }

  lemma {:induction false} ReplaceSlot(table: seq<Slot>, i: nat, s: Slot)
    requires i < |table|
    ensures AllRules(table[i := s]) + RulesOf(table[i]) == AllRules(table) + RulesOf(s)
    decreases i
  {
    hide RulesOf;
    if i == 0 {
      assert table[0 := s][1..] == table[1..];
      assert RulesOf(s) + AllRules(table[1..]) + RulesOf(table[0]) == RulesOf(table[0]) + AllRules(table[1..]) + RulesOf(s);
    } else {
      assert table[i := s][1..] == table[1..][i - 1 := s] && table[i := s][0] == table[0];
      ReplaceSlot(table[1..], i - 1, s);
      SumsAgree(RulesOf(table[0]), AllRules(table[1..][i - 1 := s]), RulesOf(table[i]), AllRules(table[1..]), RulesOf(s));
    }
  }

  lemma {:induction false} OneSlot(table: seq<Slot>, i: nat)
    requires i < |table|
    ensures RulesOf(table[i]) <= AllRules(table)
    decreases i
  {
    hide RulesOf;
    if i > 0 { OneSlot(table[1..], i - 1); }
  }

  lemma UpToAndFrom(ip: string, port: nat, n: nat)
    requires n <= 4
    ensures RulesUpTo(ip, port, n) + RulesFrom(ip, port, n) == RulesFrom(ip, port, 0)
  {
  }

  lemma SameRule(ip: string, port: nat, n: nat, ip': string, port': nat, k: nat)
    requires n < 4 && k < 4
    ensures RuleOf(ip', port', k) == RuleOf(ip, port, n) <==> n == k && ip' == ip && (k >= 2 || port' == port)
  {
  }

  /** Every rule names the address of its lease, and the four differ. */
  lemma {:induction false} WhoseRules(ip: string, port: nat, n: nat, ip': string, port': nat, k: nat)
    requires n <= 4 && k < 4
    ensures RulesFrom(ip, port, n)[RuleOf(ip', port', k)] == if n <= k && ip' == ip &&
      (k >= 2 || port' == port) then 1 else 0
    decreases 4 - n
  {
    hide RuleOf;
    if n < 4 {
      SameRule(ip, port, n, ip', port', k);
      WhoseRules(ip, port, n + 1, ip', port', k);
    }
  }

  lemma {:induction false} NotBefore(ip: string, port: nat, n: nat, k: nat)
    requires n <= k < 4
    ensures RuleOf(ip, port, k) !in RulesUpTo(ip, port, n)
  {
    if n > 0 { NotBefore(ip, port, n - 1, k); }
  }

  /** No two active slots have a rule in common. */
  lemma {:induction false} OnceOnly(table: seq<Slot>, ip: string, port: nat, k: nat)
    requires OneLeaseEach(table) && k < 4
    ensures AllRules(table)[RuleOf(ip, port, k)] <= 1
    ensures RuleOf(ip, port, k) in AllRules(table) ==> exists i :: 0 <= i < |table| && table[i].time != 0 && table[i].ip_addr == ip
  {
    hide RulesFrom, RuleOf;
    if table != [] {
      var rest := table[1..];
      OnceOnly(rest, ip, port, k);
      WhoseRules(table[0].ip_addr, table[0].port, 0, ip, port, k);
      if RuleOf(ip, port, k) in AllRules(rest) {
        var i :| 0 <= i < |rest| && rest[i].time != 0 && rest[i].ip_addr == ip;
        assert table[i + 1] == rest[i];
      }
    }
  }

  lemma NoRulesOf(s: Slot)
    requires s.time == 0
    ensures RulesOf(s) == multiset{}
  {
  }

  lemma OthersDiffer(table: seq<Slot>, i: nat)
    requires OneLeaseEach(table) && i < |table| && table[i].time != 0
    ensures forall j :: 0 <= j < |table| && j != i ==> table[j].time == 0 || table[j].ip_addr != table[i].ip_addr
  {
  }

  // ----- the books: what the kernel holds against what the table says

  /** Rules in the kernel, still to be installed and already deleted, against those of the table and the stray ones. */
  ghost predicate Balanced(rules: multiset<Rule>, missing: multiset<Rule>, deleted: multiset<Rule>, all: multiset<Rule>,
    strays: multiset<Rule>)
  {
    rules + missing + deleted == all + strays
  }

  lemma Install1(rules: multiset<Rule>, missing: multiset<Rule>, deleted: multiset<Rule>, all: multiset<Rule>,
      strays: multiset<Rule>, r: Rule)
    requires Balanced(rules, multiset{r} + missing, deleted, all, strays)
    ensures Balanced(rules + multiset{r}, missing, deleted, all, strays)
  {
    assert rules + multiset{r} + missing + deleted == rules + (multiset{r} + missing) + deleted;
  }

  /** Deleting a rule that is there, and deleting one that is not. */
  lemma Delete1(rules: multiset<Rule>, missing: multiset<Rule>, deleted: multiset<Rule>, all: multiset<Rule>,
      strays: multiset<Rule>, r: Rule)
    requires Balanced(rules, missing, deleted, all, strays)
    ensures r in rules ==> Balanced(rules - multiset{r}, missing, deleted + multiset{r}, all, strays)
    ensures r !in rules ==> Balanced(rules - multiset{r}, missing, deleted + multiset{r}, all, strays + multiset{r})
  {
    if r in rules {
      assert rules - multiset{r} + missing + (deleted + multiset{r}) == rules + missing + deleted;
    } else {
      assert rules - multiset{r} == rules;
      assert rules + missing + (deleted + multiset{r}) == rules + missing + deleted + multiset{r};
      assert all + (strays + multiset{r}) == all + strays + multiset{r};
    }
  }

  /** How often the kernel holds one rule. */
  lemma Count1(rules: multiset<Rule>, missing: multiset<Rule>, deleted: multiset<Rule>, all: multiset<Rule>,
      strays: multiset<Rule>, r: Rule)
    requires Balanced(rules, missing, deleted, all, strays)
    ensures rules[r] + missing[r] + deleted[r] == all[r] + strays[r]
  {
    assert (rules + missing + deleted)[r] == (all + strays)[r];
  }

  /** The table changes by one slot's rules, and so does what was deleted or is still to be installed. */
  lemma Change(rules: multiset<Rule>, missing: multiset<Rule>, deleted: multiset<Rule>, all: multiset<Rule>,
      strays: multiset<Rule>, missing': multiset<Rule>, deleted': multiset<Rule>, all': multiset<Rule>)
    requires Balanced(rules, missing, deleted, all, strays)
    requires all + missing' + deleted' == all' + missing + deleted
    ensures Balanced(rules, missing', deleted', all', strays)
  {
    forall r ensures (rules + missing' + deleted')[r] == (all' + strays)[r] {
      Count1(rules, missing, deleted, all, strays, r);
      assert (all + missing' + deleted')[r] == (all' + missing + deleted)[r];
    }
  }

  // ----- the two threads on values

  /** The table, the kernel's rules, and where the two threads are. */
  datatype World = World(table: seq<Slot>, rules: multiset<Rule>, install: Install, monitor: Monitor)

  datatype Step = Add(ip: string, now: nat) | InstallRule | BeginSweep(cur: nat) | NextSweep

  /** The first slot that holds a lease of the address, or the table's length. */
  function HolderOf(table: seq<Slot>, ip: string): (i: nat)
    ensures i <= |table| && (i < |table| ==> table[i].time != 0 && table[i].ip_addr == ip)
    ensures forall j :: 0 <= j < i ==> table[j].time == 0 || table[j].ip_addr != ip
  {
    if table == [] || (table[0].time != 0 && table[0].ip_addr == ip) then 0
    else
      assert forall j :: 1 <= j < |table| ==> table[j] == table[1..][j - 1];
      1 + HolderOf(table[1..], ip)
  }

  /** The first free slot, or the table's length. */
  function FreeIn(table: seq<Slot>): (i: nat)
    ensures i <= |table| && (i < |table| ==> table[i].time == 0) && forall j :: 0 <= j < i ==> table[j].time != 0
  {
    if table == [] || table[0].time == 0 then 0
    else
      assert forall j :: 1 <= j < |table| ==> table[j] == table[1..][j - 1];
      1 + FreeIn(table[1..])
  }

  /** The critical section of `add_ap_connection`. */
  function Added(w: World, ip: string, now: nat): World {
    var i, j := HolderOf(w.table, ip), FreeIn(w.table);
    if i < |w.table| then w.(table := w.table[i := w.table[i].(time := now)])
    else if j < |w.table| then
      w.(table := w.table[j := Slot(ip, w.table[j].port, now)], install := Installing(j, ip, w.table[j].port, 0))
    else w
  }

  /** The next rule of an install. */
  function OneInstalled(w: World): World
    requires w.install.Installing?
  {
    w.(rules := w.rules + multiset{RuleOf(w.install.ip, w.install.port, w.install.done)},
       install := if w.install.done == 3 then Idle else w.install.(done := w.install.done + 1))
  }

  /** The sweep's next step is a deletion. */
  predicate Deletes(w: World) {
    w.monitor.Sweeping? && w.monitor.slot < |w.table| && w.monitor.done < 4 &&
    Expired(w.table[w.monitor.slot], w.monitor.cur)
  }

  /** The rule it deletes. */
  function NextRule(w: World): Rule
    requires Deletes(w)
  {
    RuleOf(w.table[w.monitor.slot].ip_addr, w.table[w.monitor.slot].port, w.monitor.done)
  }

  /** It deletes a rule that the adding thread has not installed yet. */
  predicate TooEarly(w: World) {
    Deletes(w) && w.install.Installing? && w.install.slot == w.monitor.slot && w.install.done <= w.monitor.done
  }

  /** The sweep's next step: the end, the next slot, a deletion, or the clearing of a slot. */
  function SweptOn(w: World): World
    requires w.monitor.Sweeping?
  {
    var m := w.monitor;
    if m.slot >= |w.table| then w.(monitor := Watching)
    else if !Expired(w.table[m.slot], m.cur) then w.(monitor := m.(slot := m.slot + 1))
    else if m.done < 4 then w.(rules := w.rules - multiset{NextRule(w)}, monitor := m.(done := m.done + 1))
    else w.(table := w.table[m.slot := Cleared(w.table[m.slot])], monitor := m.(slot := m.slot + 1, done := 0))
  }

  /** One step of a schedule; `Add` waits for the adding thread and for the critical section, the other steps for their
      thread to have something to do. */
  function Next(w: World, step: Step): World {
    match step
    case Add(ip, now) => if w.install == Idle && w.monitor == Watching && now != 0 then Added(w, ip, now) else w
    case InstallRule => if w.install.Installing? then OneInstalled(w) else w
    case BeginSweep(cur) => if w.monitor == Watching then w.(monitor := Sweeping(cur, 0, 0)) else w
    case NextSweep => if w.monitor.Sweeping? then SweptOn(w) else w
  }

  function After(w: World, steps: seq<Step>): World
    decreases |steps|
  {
    if steps == [] then w else After(Next(w, steps[0]), steps[1..])
  }

  /** How many rules a schedule deletes before they are installed. */
  function EarlyIn(w: World, steps: seq<Step>): nat
    decreases |steps|
  {
    if steps == [] then 0
    else (if steps[0] == NextSweep && TooEarly(w) then 1 else 0) + EarlyIn(Next(w, steps[0]), steps[1..])
  }

  predicate AtRest(w: World) { w.install == Idle && w.monitor == Watching }

  // ----- schedules

  lemma {:induction false} OneAfterTheOther(w: World, a: seq<Step>, b: seq<Step>)
    ensures After(w, a + b) == After(After(w, a), b)
    ensures EarlyIn(w, a + b) == EarlyIn(w, a) + EarlyIn(After(w, a), b)
    decreases |a|
  {
    hide Next, TooEarly;
    if a == [] {
      assert a + b == b;
    } else {
      assert (a + b)[0] == a[0] && (a + b)[1..] == a[1..] + b;
      OneAfterTheOther(Next(w, a[0]), a[1..], b);
    }
  }

  /** At no time of the schedule has the lease expired that is being installed. */
  ghost predicate InstallsInTime(w: World, steps: seq<Step>)
    decreases |steps|
  {
    (w.install.Installing? && w.monitor.Sweeping? && w.install.slot < |w.table| ==>
      !Expired(w.table[w.install.slot], w.monitor.cur)) &&
    (steps == [] || InstallsInTime(Next(w, steps[0]), steps[1..]))
  }

  /** If every install is finished before its lease expires, no rule is deleted early. */
  lemma {:induction false} InTimeIsNeverEarly(w: World, steps: seq<Step>)
    requires InstallsInTime(w, steps)
    ensures EarlyIn(w, steps) == 0
    decreases |steps|
  {
    hide Next;
    if steps != [] { InTimeIsNeverEarly(Next(w, steps[0]), steps[1..]); }
  }

  function Times(step: Step, n: nat): seq<Step> { if n == 0 then [] else [step] + Times(step, n - 1) }

  /** A sweep that is not interrupted ends after so many steps, and has freed exactly the slots whose lease is more than 600
      seconds old. */
  lemma {:induction false} SweepEnds(w: World, n: nat)
    requires w.monitor.Sweeping? && w.monitor.slot <= |w.table| && w.monitor.done <= 4
    requires n >= 5 * (|w.table| - w.monitor.slot) - w.monitor.done + 1
    requires w.monitor.done > 0 ==> w.monitor.slot < |w.table| && Expired(w.table[w.monitor.slot], w.monitor.cur)
    ensures var r := After(w, Times(NextSweep, n));
      r.monitor == Watching && r.install == w.install && |r.table| == |w.table| &&
      forall j :: 0 <= j < |w.table| ==>
        var s := w.table[j];
        r.table[j] == if w.monitor.slot <= j && s.time != 0 && w.monitor.cur - s.time > 600
          then Slot("", s.port, 0) else s
    decreases n
  {
    var next, steps := Next(w, NextSweep), Times(NextSweep, n);
    assert steps[0] == NextSweep && steps[1..] == Times(NextSweep, n - 1);
    if w.monitor.slot < |w.table| {
      SweepEnds(next, n - 1);
    } else {
      NothingToSweep(next, n - 1);
    }
  }

  lemma {:induction false} NothingToSweep(w: World, n: nat)
    requires w.monitor == Watching
    ensures After(w, Times(NextSweep, n)) == w
  {
    if n > 0 {
      var steps := Times(NextSweep, n);
      assert steps[0] == NextSweep && steps[1..] == Times(NextSweep, n - 1);
      NothingToSweep(w, n - 1);
    }
  }

  /** The four rules of a lease: both protocols, translated to its port and let through. */
  lemma FourRules(ip: string, port: nat)
    ensures RulesFrom(ip, port, 0) == multiset{Nat(ip, port, false), Nat(ip, port, true), Filter(ip, false), Filter(ip, true)}
  {
    assert RulesFrom(ip, port, 3) == multiset{RuleOf(ip, port, 3)} + RulesFrom(ip, port, 4);
    assert RulesFrom(ip, port, 2) == multiset{RuleOf(ip, port, 2)} + RulesFrom(ip, port, 3);
  }

  // ----- the program

  /** What `init_ap_connection_info_list` sets up. */
  const START: World := World(seq(MAX_AP_CONNECTION, i requires i >= 0 => Slot("", START_PORT + i, 0)), multiset{}, Idle, Watching)

  class LeaseTable {
    const list: array<Slot>
    var rules: multiset<Rule>   // what iptables holds in the two chains
    var install: Install        // where the adding thread is
    var monitor: Monitor        // where the sweeping thread is
    ghost var swept: seq<Slot>  // the table when the sweep began
    ghost var strays: multiset<Rule>
    ghost var early: nat        // how many rules were deleted before they were installed

    ghost function Now(): World
      reads this`rules, this`install, this`monitor, list
    {
      World(list[..], rules, install, monitor)
    }

    ghost predicate Tabled()
      reads list
    {
      list.Length == MAX_AP_CONNECTION && OwnPorts(list[..]) && OneLeaseEach(list[..])
    }

    /** The lease being installed is that of its slot, unless it was dropped meanwhile. */
    ghost predicate InstallOk()
      reads this`install, list
    {
      install.Installing? ==>
        install.slot < list.Length && install.done < 4 && install.port == START_PORT + install.slot &&
        forall j :: 0 <= j < list.Length && list[j].time != 0 ==> (list[j].ip_addr == install.ip <==> j == install.slot)
    }

    /** The slots before the one the sweep has come to are swept, the others as they were. */
    ghost predicate SweptUpTo(m: Monitor)
      reads this`swept, list
    {
      m.Sweeping? ==>
        m.slot <= list.Length == |swept| && m.done <= 4 &&
        (m.done > 0 ==> m.slot < list.Length && Expired(list[m.slot], m.cur)) &&
        (forall j :: 0 <= j < m.slot ==> list[j] == Swept(swept[j], m.cur)) &&
        forall j :: m.slot <= j < list.Length ==> list[j] == swept[j]
    }

    ghost predicate MonitorOk()
      reads this`monitor, this`swept, list
    {
      SweptUpTo(monitor)
    }

    /** The kernel's rules are, but for those on their way in or out, four for each active slot and the stray ones, and
        there are stray ones only if a rule was deleted early. */
    ghost predicate Valid()
      reads this, list
    {
      Tabled() && InstallOk() && MonitorOk() &&
      Balanced(rules, Missing(install), Deleted(list[..], monitor), AllRules(list[..]), strays) &&
      (strays == multiset{} <==> early == 0)
    }

    /** `init_ap_connection_info_list`; the chains have just been created. */
    constructor ()
      ensures Valid() && fresh(list) && Now() == START && early == 0
      ensures list.Length == 10 && forall i :: 0 <= i < 10 ==> list[i] == Slot("", 8081 + i, 0)
    {
      var a := new Slot[MAX_AP_CONNECTION](i => Slot("", 0, 0));
      var i := 0;
      while i < MAX_AP_CONNECTION
        invariant i <= MAX_AP_CONNECTION && forall j :: 0 <= j < i ==> a[j] == Slot("", START_PORT + j, 0)
      {
        a[i] := Slot("", START_PORT + i, 0);
        i := i + 1;
      }
      list, rules, install, monitor, swept, strays, early := a, multiset{}, Idle, Watching, [], multiset{}, 0;
      new;
      assert list[..] == START.table;
      NoRules(list[..]);
    }

    /** The critical section of `add_ap_connection`: the port, or 0 when the table is full. */
    method BeginAdd(ip: string, now: nat) returns (port: nat)
      requires Valid() && install == Idle && monitor == Watching && now != 0
      modifies this`install, list
      ensures Valid() && Now() == Added(old(Now()), ip, now)
      ensures port != 0 ==> 8081 <= port < 8081 + list.Length && list[port - 8081] == Slot(ip, port, now)
      ensures port == 0 ==> list[..] == old(list[..])
      ensures port == 0 ==> forall i :: 0 <= i < list.Length ==> list[i].time != 0 && list[i].ip_addr != ip
      ensures forall i :: 0 <= i < list.Length && 8081 + i != port ==> list[i] == old(list[i])
      ensures port != 0 ==>
        (old(list[port - 8081].time) != 0 && old(list[port - 8081].ip_addr) == ip && install == Idle) ||
        (old(list[port - 8081].time) == 0 && install == Installing(port - 8081, ip, port, 0))
      ensures install.Installing? ==> forall i :: 0 <= i < install.slot && i < list.Length ==> old(list[i].time) != 0
    {
      hide LeaseTable.Valid;
      Sizes();
      var i := 0;
      while i < MAX_AP_CONNECTION
        invariant i <= MAX_AP_CONNECTION == list.Length && Valid()
        invariant forall j :: 0 <= j < list.Length ==> list[j].port == START_PORT + j
        invariant forall j :: 0 <= j < i ==> list[j].time == 0 || list[j].ip_addr != ip
      {
        if list[i].time != 0 && list[i].ip_addr == ip {
          HolderIs(list[..], ip, i);
          Renew(i, now);
          return list[i].port;
        }
        i := i + 1;
      }
      HolderIs(list[..], ip, i);
      i := 0;
      while i < MAX_AP_CONNECTION
        invariant i <= MAX_AP_CONNECTION == list.Length && Valid() && forall j :: 0 <= j < i ==> list[j].time != 0
      {
        if list[i].time == 0 {
          FreeIs(list[..], i);
          Take(i, ip, now);
          return list[i].port;
        }
        i := i + 1;
      }
      FreeIs(list[..], i);
      port := 0;
    }

    /** Writing one slot: the other conditions on the table. */
    method Write(i: nat, s: Slot)
      requires Tabled() && i < list.Length && s.port == START_PORT + i
      requires s.time != 0 ==> forall j :: 0 <= j < list.Length && j != i ==> list[j].time == 0 || list[j].ip_addr != s.ip_addr
      modifies list
      ensures Tabled() && list[i] == s &&
        AllRules(list[..]) + RulesOf(old(list[i])) == AllRules(old(list[..])) + RulesOf(s)
      ensures forall j :: 0 <= j < list.Length && j != i ==> list[j] == old(list[j])
      ensures list[..] == old(list[..])[i := s]
    {
      hide RulesOf, AllRules;
      ghost var before := list[..];
      ReplaceSlot(before, i, s);
      list[i] := s;
      assert list[..] == before[i := s];
    }

    method Renew(i: nat, now: nat)
      requires Valid() && install == Idle && monitor == Watching && now != 0 && i < list.Length && list[i].time != 0
      modifies list
      ensures Valid() && list[..] == old(list[..])[i := old(list[i]).(time := now)]
    {
      hide AllRules, RulesFrom, OneLeaseEach, Balanced;
      ghost var before := list[..];
      OthersDiffer(before, i);
      Write(i, list[i].(time := now));
      Cancel(AllRules(list[..]), AllRules(before), RulesOf(list[i]));
    }

    method Take(i: nat, ip: string, now: nat)
      requires Valid() && install == Idle && monitor == Watching && now != 0 && i < list.Length && list[i].time == 0
      requires forall j :: 0 <= j < list.Length ==> list[j].time == 0 || list[j].ip_addr != ip
      modifies list, this`install
      ensures Valid() && list[..] == old(list[..])[i := Slot(ip, START_PORT + i, now)]
      ensures install == Installing(i, ip, START_PORT + i, 0)
    {
      hide AllRules, RulesFrom, OneLeaseEach, Balanced;
      ghost var before := list[..];
      PortOf(i);
      Write(i, Slot(ip, list[i].port, now));
      install := Installing(i, ip, list[i].port, 0);
      assert AllRules(list[..]) + multiset{} == AllRules(list[..]);
      Change(rules, multiset{}, multiset{}, AllRules(before), strays, Missing(install), multiset{}, AllRules(list[..]));
    }

    /** One `create_nat_rule` or `create_filter_rule`, outside the critical section, whatever the other thread does. */
    method InstallNext()
      requires Valid() && install.Installing?
      modifies this`rules, this`install
      ensures Valid() && Now() == OneInstalled(old(Now()))
    {
      hide AllRules, LeaseTable.Tabled, Balanced, Deleted, RuleOf;
      ghost var r := RuleOf(install.ip, install.port, install.done);
      ghost var after := RulesFrom(install.ip, install.port, install.done + 1);
      Install1(rules, after, Deleted(list[..], monitor), AllRules(list[..]), strays, r);
      rules := rules + multiset{RuleOf(install.ip, install.port, install.done)};
      install := if install.done == 3 then Idle else install.(done := install.done + 1);
    }

    /** `iptables -D`: takes away one such rule, if there is one. */
    method DeleteRule(r: Rule)
      modifies this`rules
      ensures rules == old(rules) - multiset{r}
    {
      rules := rules - multiset{r};
    }

    /** The sweeping thread has read the clock and entered its critical section. */
    method SweepBegins(cur: nat)
      requires Valid() && monitor == Watching
      modifies this`monitor, this`swept
      ensures Valid() && Now() == old(Now()).(monitor := Sweeping(cur, 0, 0)) && swept == list[..]
    {
      hide LeaseTable.Tabled, AllRules, RulesFrom, Balanced, LeaseTable.InstallOk;
      monitor, swept := Sweeping(cur, 0, 0), list[..];
    }

    /** Exactly the leases that had expired when the sweep began are gone. */
    ghost predicate IsSwept(cur: nat)
      reads this`swept, list
      requires |swept| == list.Length
    {
      forall j :: 0 <= j < list.Length ==> list[j] == Swept(swept[j], cur)
    }

    /** The sweep's next step: to the next slot, a deletion, the clearing of a slot, or the end. */
    method SweepNext()
      requires Valid() && monitor.Sweeping?
      modifies this`rules, this`monitor, this`strays, this`early, list
      ensures Valid() && Now() == SweptOn(old(Now()))
      ensures early == old(early) + if TooEarly(old(Now())) then 1 else 0
      ensures monitor == Watching ==> |swept| == list.Length && IsSwept(old(monitor).cur)
      ensures monitor == Watching ==> forall j :: 0 <= j < list.Length ==>
        list[j] == if swept[j].time != 0 && old(monitor).cur - swept[j].time > 600 then Slot("", 8081 + j, 0) else swept[j]
    {
      hide LeaseTable.Valid, LeaseTable.Tabled, AllRules;
      SweepState();
      if monitor.slot == MAX_AP_CONNECTION {
        Finish();
      } else if !Expired(list[monitor.slot], monitor.cur) {
        Pass();
      } else if monitor.done < 4 {
        DeleteNext();
      } else {
        Clear();
      }
    }

    lemma SweepState()
      requires Valid() && monitor.Sweeping?
      ensures monitor.slot <= list.Length == MAX_AP_CONNECTION && monitor.done <= 4
      ensures monitor.done > 0 ==> monitor.slot < list.Length && Expired(list[monitor.slot], monitor.cur)
    {
    }

    method Finish()
      requires Valid() && monitor.Sweeping? && monitor.slot == list.Length
      modifies this`monitor
      ensures Valid() && monitor == Watching
      ensures |swept| == list.Length && IsSwept(old(monitor).cur)
      ensures forall j :: 0 <= j < list.Length ==>
        list[j] == if swept[j].time != 0 && old(monitor).cur - swept[j].time > 600 then Slot("", 8081 + j, 0) else swept[j]
    {
      hide LeaseTable.Tabled, AllRules, RulesFrom, Balanced, LeaseTable.InstallOk;
      Sizes();
      monitor := Watching;
    }

    method Pass()
      requires Valid() && monitor.Sweeping? && monitor.slot < list.Length && !Expired(list[monitor.slot], monitor.cur)
      modifies this`monitor
      ensures Valid() && monitor == old(monitor).(slot := old(monitor).slot + 1)
    {
      hide LeaseTable.Tabled, AllRules, RulesFrom, Balanced, LeaseTable.InstallOk;
      monitor := monitor.(slot := monitor.slot + 1);
    }

    /** One of the four deletions for an expired lease. */
    method DeleteNext()
      requires Valid() && Deletes(Now())
      modifies this`rules, this`monitor, this`strays, this`early
      ensures Valid() && monitor == old(monitor).(done := old(monitor).done + 1)
      ensures early == old(early) + if TooEarly(old(Now())) then 1 else 0
      ensures rules == old(rules) - multiset{NextRule(old(Now()))}
    {
      hide AllRules, LeaseTable.Tabled, Balanced, RulesFrom, RulesUpTo, Deleted, RuleOf, Missing,
        LeaseTable.InstallOk, LeaseTable.SweptUpTo, Expired, Swept;
      StepsLeft();
      StillSwept();
      OneMore(list[..], monitor);
      var s := list[monitor.slot];
      var r := RuleOf(s.ip_addr, s.port, monitor.done);
      ghost var missing, deleted, all := Missing(install), Deleted(list[..], monitor), AllRules(list[..]);
      Delete1(rules, missing, deleted, all, strays, r);
      Present();
      if TooEarly(Now()) {
        early := early + 1;
        strays := if r in rules then strays else strays + multiset{r};
      }
      DeleteRule(r);
      monitor := monitor.(done := monitor.done + 1);
    }

    lemma StillSwept()
      requires Valid() && Deletes(Now())
      ensures SweptUpTo(monitor.(done := monitor.done + 1)) && monitor.slot < list.Length && monitor.done < 4
    {
    }

    lemma StepsLeft()
      requires Valid()
      ensures install.Installing? ==> install.done < 4
    {
    }

    /** A rule that is to be deleted is there, or it is deleted early; if it is there all the same, it is a stray one. */
    lemma Present()
      requires Valid() && Deletes(Now())
      ensures var r := RuleOf(list[monitor.slot].ip_addr, list[monitor.slot].port, monitor.done);
        if TooEarly(Now()) then r in rules ==> r in strays else r in rules
    {
      hide AllRules, RulesFrom, RulesUpTo, RuleOf, OneLeaseEach;
      var table, i, k := list[..], monitor.slot, monitor.done;
      var s := table[i];
      var r := RuleOf(s.ip_addr, s.port, k);
      Count1(rules, Missing(install), Deleted(table, monitor), AllRules(table), strays, r);
      OneSlot(table, i);
      OnceOnly(table, s.ip_addr, s.port, k);
      WhoseRules(s.ip_addr, s.port, 0, s.ip_addr, s.port, k);
      assert r in RulesOf(s);
      NotBefore(s.ip_addr, s.port, k, k);
      if install.Installing? {
        WhoseRules(install.ip, install.port, install.done, s.ip_addr, s.port, k);
      }
    }

    /** All four deletions are made: the slot is free. */
    method Clear()
      requires Valid() && monitor.Sweeping? && monitor.slot < list.Length && monitor.done == 4
      modifies this`monitor, list
      ensures Valid() && monitor == old(monitor).(slot := old(monitor).slot + 1, done := 0)
      ensures list[..] == old(list[..])[old(monitor).slot := Cleared(old(list[monitor.slot]))]
    {
      hide AllRules, OneLeaseEach, OwnPorts, Balanced, RulesFrom, RulesUpTo;
      var i := monitor.slot;
      var s := list[i];
      ghost var before, deleted := list[..], Deleted(list[..], monitor);
      PortOf(i);
      AllFour(s);
      Write(i, Cleared(s));
      NoRulesOf(Cleared(s));
      monitor := monitor.(slot := i + 1, done := 0);
      NoneDeleted(list[..], monitor);
      SlotGone(AllRules(list[..]), AllRules(before), Missing(install), deleted);
      Change(rules, Missing(install), deleted, AllRules(before), strays, Missing(install), multiset{}, AllRules(list[..]));
    }

    lemma PortOf(i: nat)
      requires Tabled() && i < list.Length
      ensures list[i].port == START_PORT + i
    {
    }

    lemma Sizes()
      requires Valid()
      ensures list.Length == MAX_AP_CONNECTION && forall i :: 0 <= i < list.Length ==> list[i].port == START_PORT + i
    {
    }

    /** Any interleaving of the two threads' steps; `Add` waits for the adding thread and for the critical section. */
    method Run(steps: seq<Step>)
      requires Valid()
      modifies this, list
      ensures Valid() && Tabled() && Now() == After(old(Now()), steps)
      ensures early == old(early) + EarlyIn(old(Now()), steps)
      ensures install == Idle && monitor == Watching ==> rules == AllRules(list[..]) + strays
      ensures install == Idle && monitor == Watching ==> (rules == AllRules(list[..]) <==> early == 0)
    {
      hide LeaseTable.Valid, LeaseTable.Tabled, AllRules, Added, OneInstalled, SweptOn, TooEarly;
      var n := 0;
      ghost var w := Now();
      assert steps[0..] == steps;
      while n < |steps|
        invariant n <= |steps| && Valid() && After(Now(), steps[n..]) == After(w, steps)
        invariant early + EarlyIn(Now(), steps[n..]) == old(early) + EarlyIn(w, steps)
      {
        assert steps[n..][0] == steps[n] && steps[n..][1..] == steps[n + 1..];
        NotSweeping(Now());
        match steps[n] {
          case Add(ip, now) =>
            if install == Idle && monitor == Watching && now != 0 {
              var _ := BeginAdd(ip, now);
            }
          case InstallRule =>
            if install.Installing? { InstallNext(); }
          case BeginSweep(cur) =>
            if monitor == Watching { SweepBegins(cur); }
          case NextSweep =>
            if monitor.Sweeping? { SweepNext(); }
        }
        n := n + 1;
      }
      AtRest();
    }

    lemma AtRest()
      requires Valid()
      ensures Tabled()
      ensures install == Idle && monitor == Watching ==> rules == AllRules(list[..]) + strays
      ensures install == Idle && monitor == Watching ==> (rules == AllRules(list[..]) <==> early == 0)
    {
      hide AllRules;
      if install == Idle && monitor == Watching {
        assert rules + multiset{} + multiset{} == rules;
        NothingMore(rules, AllRules(list[..]), strays);
      }
    }
  }

  // ----- a schedule that leaves rules behind

  /** An address is added; before the first of its rules is installed, a sweep begins, and it runs to its end. */
  function RaceSteps(ip: string, now: nat, cur: nat): seq<Step> {
    [Add(ip, now), BeginSweep(cur)] + (Times(NextSweep, 4) + ([NextSweep] + (Times(NextSweep, 10) + Times(InstallRule, 4))))
  }

  lemma {:induction false} FourDeletions(w: World, k: nat)
    requires w.monitor.Sweeping? && w.monitor.slot < |w.table| && w.monitor.done == k <= 4 && w.rules == multiset{}
    requires Expired(w.table[w.monitor.slot], w.monitor.cur)
    requires w.install.Installing? && w.install.slot == w.monitor.slot && w.install.done == 0
    ensures After(w, Times(NextSweep, 4 - k)) == w.(monitor := w.monitor.(done := 4))
    ensures EarlyIn(w, Times(NextSweep, 4 - k)) == 4 - k
    decreases 4 - k
  {
    if k < 4 {
      var next := Next(w, NextSweep);
      assert next == w.(monitor := w.monitor.(done := k + 1));
      var steps := Times(NextSweep, 4 - k);
      assert steps[0] == NextSweep && steps[1..] == Times(NextSweep, 3 - k);
      FourDeletions(next, k + 1);
    }
  }

  lemma {:induction false} PassFreeSlots(w: World, n: nat)
    requires w.monitor.Sweeping? && w.monitor.slot + n == |w.table| && w.monitor.done == 0
    requires forall i :: 0 <= i < |w.table| ==> w.table[i].time == 0
    ensures After(w, Times(NextSweep, n + 1)) == w.(monitor := Watching) && EarlyIn(w, Times(NextSweep, n + 1)) == 0
    decreases n
  {
    var next, steps := Next(w, NextSweep), Times(NextSweep, n + 1);
    assert steps[0] == NextSweep && steps[1..] == Times(NextSweep, n);
    if n > 0 { PassFreeSlots(next, n - 1); }
  }

  lemma {:induction false} FourInstalls(w: World, k: nat)
    requires w.install.Installing? && w.install.done == k < 4
    ensures After(w, Times(InstallRule, 4 - k)) ==
      w.(install := Idle, rules := w.rules + RulesFrom(w.install.ip, w.install.port, k))
    ensures EarlyIn(w, Times(InstallRule, 4 - k)) == 0
    decreases 4 - k
  {
    hide RulesFrom, RuleOf, TooEarly, Next;
    var next, steps := Next(w, InstallRule), Times(InstallRule, 4 - k);
    assert steps[0] == InstallRule && steps[1..] == Times(InstallRule, 3 - k);
    OneInstall(w);
    RulesJoin(w.rules, w.install.ip, w.install.port, k);
    if k < 3 { FourInstalls(next, k + 1); }
  }

  lemma OneInstall(w: World)
    requires w.install.Installing? && w.install.done < 4
    ensures var rules := w.rules + multiset{RuleOf(w.install.ip, w.install.port, w.install.done)};
      Next(w, InstallRule) ==
        w.(rules := rules, install := if w.install.done == 3 then Idle else w.install.(done := w.install.done + 1))
    ensures RulesFrom(w.install.ip, w.install.port, 4) == multiset{}
  {
    hide RuleOf;
  }

  lemma RulesJoin(rules: multiset<Rule>, ip: string, port: nat, k: nat)
    requires k < 4
    ensures rules + multiset{RuleOf(ip, port, k)} + RulesFrom(ip, port, k + 1) == rules + RulesFrom(ip, port, k)
  {
    hide RuleOf;
    var r, rest := RuleOf(ip, port, k), RulesFrom(ip, port, k + 1);
    assert rules + multiset{r} + rest == rules + (multiset{r} + rest);
  }

  /** The race ends with all slots free, and with the four rules of the lease in the kernel. */
  lemma RaceLeavesRules(ip: string, now: nat, cur: nat)
    requires now != 0 && cur > now + EXPIRE_TIME
    ensures After(START, RaceSteps(ip, now, cur)) == World(START.table, RulesFrom(ip, START_PORT, 0), Idle, Watching)
    ensures EarlyIn(START, RaceSteps(ip, now, cur)) == 4
  {
    hide RulesFrom, Times, After, EarlyIn;
    var begin, four := [Add(ip, now), BeginSweep(cur)], Times(NextSweep, 4);
    var rest := [NextSweep] + (Times(NextSweep, 10) + Times(InstallRule, 4));
    var w := World(START.table[0 := Slot(ip, START_PORT, now)], multiset{}, Installing(0, ip, START_PORT, 0),
      Sweeping(cur, 0, 0));
    RaceBegins(ip, now, cur);
    OneAfterTheOther(START, begin, four + rest);
    FourDeletions(w, 0);
    OneAfterTheOther(w, four, rest);
    SlotIsCleared(ip, now, cur);
    OneAfterTheOther(w.(monitor := Sweeping(cur, 0, 4)), [NextSweep], Times(NextSweep, 10) + Times(InstallRule, 4));
    RaceEnds(ip, cur);
  }

  lemma RaceEnds(ip: string, cur: nat)
    ensures var w := World(START.table, multiset{}, Installing(0, ip, START_PORT, 0), Sweeping(cur, 1, 0));
      var steps := Times(NextSweep, 10) + Times(InstallRule, 4);
      After(w, steps) == World(START.table, RulesFrom(ip, START_PORT, 0), Idle, Watching) && EarlyIn(w, steps) == 0
  {
    hide RulesFrom, Times, After, EarlyIn;
    var w := World(START.table, multiset{}, Installing(0, ip, START_PORT, 0), Sweeping(cur, 1, 0));
    PassFreeSlots(w, 9);
    OneAfterTheOther(w, Times(NextSweep, 10), Times(InstallRule, 4));
    FourInstalls(w.(monitor := Watching), 0);
    assert multiset{} + RulesFrom(ip, START_PORT, 0) == RulesFrom(ip, START_PORT, 0);
  }

  lemma RaceBegins(ip: string, now: nat, cur: nat)
    requires now != 0
    ensures EarlyIn(START, [Add(ip, now), BeginSweep(cur)]) == 0
    ensures After(START, [Add(ip, now), BeginSweep(cur)]) ==
      World(START.table[0 := Slot(ip, START_PORT, now)], multiset{}, Installing(0, ip, START_PORT, 0), Sweeping(cur, 0, 0))
  {
    var begin := [Add(ip, now), BeginSweep(cur)];
    HolderIs(START.table, ip, MAX_AP_CONNECTION);
    FreeIs(START.table, 0);
    assert begin[1..] == [BeginSweep(cur)] && begin[1..][1..] == [];
    var w := Next(START, begin[0]);
    assert After(w, [BeginSweep(cur)]) == After(Next(w, BeginSweep(cur)), []);
    assert EarlyIn(w, [BeginSweep(cur)]) == EarlyIn(Next(w, BeginSweep(cur)), []);
  }

  lemma SlotIsCleared(ip: string, now: nat, cur: nat)
    requires now != 0 && cur > now + EXPIRE_TIME
    ensures var w := World(START.table[0 := Slot(ip, START_PORT, now)], multiset{}, Installing(0, ip, START_PORT, 0),
        Sweeping(cur, 0, 4));
      After(w, [NextSweep]) == w.(table := START.table, monitor := Sweeping(cur, 1, 0)) && EarlyIn(w, [NextSweep]) == 0
  {
    var w := World(START.table[0 := Slot(ip, START_PORT, now)], multiset{}, Installing(0, ip, START_PORT, 0),
      Sweeping(cur, 0, 4));
    var next := Next(w, NextSweep);
    assert next.table == START.table;
    assert After(w, [NextSweep]) == After(next, []) && EarlyIn(w, [NextSweep]) == EarlyIn(next, []);
  }

  /** The race, run: afterwards the kernel holds rules for a lease that is not in the table. */
  method Race(ip: string, now: nat, cur: nat) returns (t: LeaseTable)
    requires now != 0 && cur > now + 600
    ensures t.Valid() && t.Now() == After(START, RaceSteps(ip, now, cur)) && t.early == 4
    ensures AtRest(t.Now()) && t.rules != AllRules(t.list[..])
    ensures t.rules == multiset{Nat(ip, 8081, false), Nat(ip, 8081, true), Filter(ip, false), Filter(ip, true)}
  {
    hide LeaseTable.Valid, LeaseTable.Tabled, AllRules, RulesFrom, After, EarlyIn;
    t := new LeaseTable();
    t.Run(RaceSteps(ip, now, cur));
    RaceLeavesRules(ip, now, cur);
    FourRules(ip, START_PORT);
  }

  lemma NotSweeping(w: World)
    ensures !w.monitor.Sweeping? ==> !TooEarly(w)
  {
  }

  lemma HolderIs(table: seq<Slot>, ip: string, i: nat)
    requires i <= |table| && forall j :: 0 <= j < i ==> table[j].time == 0 || table[j].ip_addr != ip
    requires i < |table| ==> table[i].time != 0 && table[i].ip_addr == ip
    ensures HolderOf(table, ip) == i
  {
  }

  lemma FreeIs(table: seq<Slot>, i: nat)
    requires i <= |table| && (forall j :: 0 <= j < i ==> table[j].time != 0) && (i < |table| ==> table[i].time == 0)
    ensures FreeIn(table) == i
  {
  }

  lemma NothingMore(rules: multiset<Rule>, all: multiset<Rule>, strays: multiset<Rule>)
    requires rules == all + strays
    ensures rules == all <==> strays == multiset{}
  {
    assert |rules| == |all| + |strays|;
  }

  lemma AllFour(s: Slot)
    requires s.time != 0
    ensures RulesUpTo(s.ip_addr, s.port, 4) == RulesOf(s)
  {
    UpToAndFrom(s.ip_addr, s.port, 4);
  }

  lemma OneMore(table: seq<Slot>, m: Monitor)
    requires m.Sweeping? && m.slot < |table| && m.done < 4
    ensures var s := table[m.slot];
      Deleted(table, m.(done := m.done + 1)) == Deleted(table, m) + multiset{RuleOf(s.ip_addr, s.port, m.done)}
  {
  }

  lemma NoneDeleted(table: seq<Slot>, m: Monitor)
    requires m.Sweeping? ==> m.done == 0
    ensures Deleted(table, m) == multiset{}
  {
  }

  lemma SlotGone(all': multiset<Rule>, all: multiset<Rule>, missing: multiset<Rule>, mine: multiset<Rule>)
    requires all' + mine == all + multiset{}
    ensures all + missing + multiset{} == all' + missing + mine
  {
    assert all' + missing + mine == (all' + mine) + missing;
  }

  lemma {:induction false} NoRules(table: seq<Slot>)
    requires forall i :: 0 <= i < |table| ==> table[i].time == 0
    ensures AllRules(table) == multiset{}
  {
    if table != [] { NoRules(table[1..]); }
  }
}
