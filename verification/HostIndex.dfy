/** The cross-date index: dictionaries updated day by day, against what they mean over all days. */
module HostIndex {
  import opened HostHistory

  /** A detection; the probe and the status may be empty. */
  datatype Record = Record(ip: Host, port: nat, probe: string, status: string)

  datatype Section = Section(name: string, records: seq<Record>)

  datatype Day = Day(date: nat, sections: seq<Section>)

  datatype Entry = Entry(
    firstSeen: nat, lastSeen: nat, dates: seq<nat>, ports: set<nat>, probes: set<string>, statuses: set<string>)

  datatype DayRow = DayRow(
    date: nat, records: nat, hostSet: set<Host>,
    newHosts: set<Host>, firstSeenHosts: set<Host>, returningHosts: set<Host>, goneHosts: set<Host>, baseline: bool)

  datatype Derived = Derived(daysObserved: nat, active: bool, coverage: real, span: int, intermittent: bool)

  datatype Overview = Overview(perDate: seq<DayRow>, hosts: map<Host, Entry>, derived: map<Host, Derived>)

  // ----- what there is to see

  /** A record, with the date and the section it came from. */
  datatype Sighting = Sighting(date: nat, section: string, record: Record)

  function SectionSightings(date: nat, section: Section): seq<Sighting> {
    seq(|section.records|, i requires 0 <= i < |section.records| => Sighting(date, section.name, section.records[i]))
  }

  function Sightings(date: nat, sections: seq<Section>): seq<Sighting> {
    if sections == [] then []
    else Sightings(date, sections[..|sections| - 1]) + SectionSightings(date, sections[|sections| - 1])
  }

  function AllSightings(days: seq<Day>): seq<Sighting> {
    if days == [] then []
    else AllSightings(days[..|days| - 1]) + Sightings(days[|days| - 1].date, days[|days| - 1].sections)
  }

  function HostsOf(sightings: seq<Sighting>): set<Host> {
    set s | s in sightings :: s.record.ip
  }

  function SeenOn(day: Day): set<Host> {
    HostsOf(Sightings(day.date, day.sections))
  }

  function HistoryOf(days: seq<Day>): (h: History)
    ensures |h| == |days|
  {
    seq(|days|, i requires 0 <= i < |days| => SeenOn(days[i]))
  }

  predicate Ascending(days: seq<Day>) {
    forall i, j :: 0 <= i < j < |days| ==> days[i].date < days[j].date
  }

  function DatesOf(days: seq<Day>, h: Host): seq<nat> {
    if days == [] then []
    else DatesOf(days[..|days| - 1], h) + if h in SeenOn(days[|days| - 1]) then [days[|days| - 1].date] else []
  }

  function ProbeOf(s: Sighting): string {
    if s.record.probe == "" then s.section else s.record.probe
  }

  function Ports(all: seq<Sighting>, h: Host): set<nat> {
    set s | s in all && s.record.ip == h :: s.record.port
  }

  function Probes(all: seq<Sighting>, h: Host): set<string> {
    set s | s in all && s.record.ip == h :: ProbeOf(s)
  }

  function Statuses(all: seq<Sighting>, h: Host): set<string> {
    set s | s in all && s.record.ip == h && s.record.status != "" :: s.record.status
  }

  predicate SeenAt(all: seq<Sighting>, h: Host, date: nat) {
    exists s :: s in all && s.record.ip == h && s.date == date
  }

  /** The entry of a host, apart from its dates, over the sightings so far. */
  ghost predicate Describes(e: Entry, h: Host, all: seq<Sighting>) {
    && SeenAt(all, h, e.firstSeen) && SeenAt(all, h, e.lastSeen)
    && (forall s :: s in all && s.record.ip == h ==> e.firstSeen <= s.date <= e.lastSeen)
    && e.ports == Ports(all, h) && e.probes == Probes(all, h) && e.statuses == Statuses(all, h)
  }

  ghost predicate Indexes(hosts: map<Host, Entry>, all: seq<Sighting>) {
    hosts.Keys == HostsOf(all) && forall h :: h in hosts ==> Describes(hosts[h], h, all)
  }

  // ----- one record

  function Noted(hosts: map<Host, Entry>, s: Sighting): map<Host, Entry> {
    var r := s.record;
    var e := if r.ip in hosts then hosts[r.ip] else Entry(s.date, s.date, [], {}, {}, {});
    hosts[r.ip := Entry(if s.date < e.firstSeen then s.date else e.firstSeen,
                        if s.date > e.lastSeen then s.date else e.lastSeen,
                        e.dates, e.ports + {r.port}, e.probes + {ProbeOf(s)},
                        if r.status == "" then e.statuses else e.statuses + {r.status})]
  }

  lemma NotedIndexes(hosts: map<Host, Entry>, all: seq<Sighting>, s: Sighting)
    requires Indexes(hosts, all)
    ensures Indexes(Noted(hosts, s), all + [s])
  {
    var n := Noted(hosts, s);
    assert HostsOf(all + [s]) == HostsOf(all) + {s.record.ip} by { HostsMore(all, s); }
    forall h | h in n
      ensures Describes(n[h], h, all + [s])
    {
      if h == s.record.ip {
        NotedDescribes(hosts, all, s);
      } else {
        OtherDescribed(hosts[h], h, all, s);
      }
    }
  }

  lemma HostsMore(all: seq<Sighting>, s: Sighting)
    ensures HostsOf(all + [s]) == HostsOf(all) + {s.record.ip}
  {
    forall h | h in HostsOf(all) + {s.record.ip}
      ensures h in HostsOf(all + [s])
    {
      if h == s.record.ip {
        assert s in all + [s];
      } else {
        var t :| t in all && t.record.ip == h;
        assert t in all + [s];
      }
    }
  }

  lemma OtherDescribed(e: Entry, h: Host, all: seq<Sighting>, s: Sighting)
    requires Describes(e, h, all) && s.record.ip != h
    ensures Describes(e, h, all + [s])
  {
    assert forall t :: t in all + [s] && t.record.ip == h <==> t in all && t.record.ip == h;
    assert Ports(all + [s], h) == Ports(all, h);
    assert Probes(all + [s], h) == Probes(all, h);
    assert Statuses(all + [s], h) == Statuses(all, h);
  }

  lemma NotedDescribes(hosts: map<Host, Entry>, all: seq<Sighting>, s: Sighting)
    requires Indexes(hosts, all)
    ensures Describes(Noted(hosts, s)[s.record.ip], s.record.ip, all + [s])
  {
    var h := s.record.ip;
    var later := all + [s];
    assert s in later && forall t :: t in later <==> t in all || t == s;
    assert Ports(later, h) == Ports(all, h) + {s.record.port};
    assert Probes(later, h) == Probes(all, h) + {ProbeOf(s)};
    assert Statuses(later, h) == Statuses(all, h) + if s.record.status == "" then {} else {s.record.status};
    if h in hosts {
      var e := hosts[h];
      assert SeenAt(later, h, e.firstSeen) && SeenAt(later, h, e.lastSeen) && SeenAt(later, h, s.date);
    } else {
      assert forall t :: t in all ==> t.record.ip in HostsOf(all);
      assert Ports(all, h) == {} && Probes(all, h) == {} && Statuses(all, h) == {};
    }
  }

  // ----- one day

  method ReadSection(date: nat, section: Section, start: map<Host, Entry>, ghost all: seq<Sighting>)
      returns (hosts: map<Host, Entry>, seen: set<Host>)
    requires Indexes(start, all)
    ensures Indexes(hosts, all + SectionSightings(date, section))
    ensures seen == HostsOf(SectionSightings(date, section))
    ensures SameDates(start, hosts)
  {
    hide Describes, Indexes;
    ghost var sightings := SectionSightings(date, section);
    hosts, seen := start, {};
    assert all + sightings[..0] == all;
    for i := 0 to |section.records|
      invariant Indexes(hosts, all + sightings[..i]) && seen == HostsOf(sightings[..i])
      invariant SameDates(start, hosts)
    {
      var s := Sighting(date, section.name, section.records[i]);
      NotedIndexes(hosts, all + sightings[..i], s);
      HostsMore(sightings[..i], s);
      assert sightings[..i + 1] == sightings[..i] + [s];
      assert all + sightings[..i] + [s] == all + (sightings[..i] + [s]);
      seen := seen + {s.record.ip};
      hosts := Noted(hosts, s);
    }
    assert sightings[..|section.records|] == sightings;
  }

  /** Entries keep their dates, and new ones have none yet. */
  ghost predicate SameDates(before: map<Host, Entry>, after: map<Host, Entry>) {
    && before.Keys <= after.Keys
    && forall h :: h in after ==> after[h].dates == if h in before then before[h].dates else []
  }

  lemma HostsJoin(a: seq<Sighting>, b: seq<Sighting>)
    ensures HostsOf(a + b) == HostsOf(a) + HostsOf(b)
  {
    assert forall s :: s in a + b <==> s in a || s in b;
  }

  method ReadDay(day: Day, start: map<Host, Entry>, ghost all: seq<Sighting>)
      returns (hosts: map<Host, Entry>, seen: set<Host>, records: nat)
    requires Indexes(start, all)
    ensures Indexes(hosts, all + Sightings(day.date, day.sections))
    ensures seen == SeenOn(day) && records == |Sightings(day.date, day.sections)|
    ensures SameDates(start, hosts)
  {
    hide Describes, Indexes, HostsOf;
    hosts, seen, records := start, {}, 0;
    assert all + [] == all && HostsOf([]) == {} by { NoHosts(); }
    for i := 0 to |day.sections|
      invariant Indexes(hosts, all + Sightings(day.date, day.sections[..i]))
      invariant seen == HostsOf(Sightings(day.date, day.sections[..i]))
      invariant records == |Sightings(day.date, day.sections[..i])|
      invariant SameDates(start, hosts)
    {
      ghost var so := Sightings(day.date, day.sections[..i]);
      ghost var more := SectionSightings(day.date, day.sections[i]);
      var today;
      hosts, today := ReadSection(day.date, day.sections[i], hosts, all + so);
      assert day.sections[..i + 1][..i] == day.sections[..i];
      assert Sightings(day.date, day.sections[..i + 1]) == so + more;
      assert all + so + more == all + (so + more);
      HostsJoin(so, more);
      seen := seen + today;
      records := records + |day.sections[i].records|;
    }
    assert day.sections[..|day.sections|] == day.sections;
  }

  lemma NoHosts()
    ensures HostsOf([]) == {}
  {}

  /** Appends the date to every entry of the hosts seen. */
  method MarkDates(start: map<Host, Entry>, seen: set<Host>, date: nat) returns (hosts: map<Host, Entry>)
    requires seen <= start.Keys
    ensures hosts.Keys == start.Keys
    ensures forall h :: h in start ==>
              hosts[h] == if h in seen then start[h].(dates := start[h].dates + [date]) else start[h]
  {
    hosts := start;
    var rest := seen;
    while rest != {}
      invariant rest <= seen && hosts.Keys == start.Keys
      invariant forall h :: h in start ==>
                  hosts[h] == if h in seen && h !in rest then start[h].(dates := start[h].dates + [date]) else start[h]
      decreases rest
    {
      var h :| h in rest;
      hosts := hosts[h := hosts[h].(dates := hosts[h].dates + [date])];
      rest := rest - {h};
    }
  }

  lemma DescribesIgnoresDates(hosts: map<Host, Entry>, later: map<Host, Entry>, all: seq<Sighting>)
    requires Indexes(hosts, all) && later.Keys == hosts.Keys
    requires forall h :: h in hosts ==> later[h] == hosts[h].(dates := later[h].dates)
    ensures Indexes(later, all)
  {
    forall h | h in later
      ensures Describes(later[h], h, all)
    {
      var e := hosts[h];
      assert Describes(e, h, all);
    }
  }

  // ----- days as a history

  lemma {:induction false} SightingsDate(date: nat, sections: seq<Section>, s: Sighting)
    requires s in Sightings(date, sections)
    ensures s.date == date
  {
    if sections != [] && s in Sightings(date, sections[..|sections| - 1]) {
      SightingsDate(date, sections[..|sections| - 1], s);
    }
  }

  lemma {:induction false} SightedOn(days: seq<Day>, s: Sighting)
    ensures s in AllSightings(days) <==> exists i :: 0 <= i < |days| && s in Sightings(days[i].date, days[i].sections)
  {
    hide Sightings;
    if days != [] {
      var n := |days| - 1;
      SightedOn(days[..n], s);
      assert forall i :: 0 <= i < n ==> days[..n][i] == days[i];
      if s in AllSightings(days[..n]) {
        var i :| 0 <= i < n && s in Sightings(days[..n][i].date, days[..n][i].sections);
        assert s in Sightings(days[i].date, days[i].sections);
      }
    }
  }

  /** A host has a sighting on a date if and only if it is in the history of that day. */
  lemma SeenAtIff(days: seq<Day>, h: Host, date: nat)
    ensures SeenAt(AllSightings(days), h, date) <==>
            exists i :: 0 <= i < |days| && days[i].date == date && h in HistoryOf(days)[i]
  {
    if SeenAt(AllSightings(days), h, date) {
      var s :| s in AllSightings(days) && s.record.ip == h && s.date == date;
      SightedOn(days, s);
      var i :| 0 <= i < |days| && s in Sightings(days[i].date, days[i].sections);
      SightingsDate(days[i].date, days[i].sections, s);
      assert h in HistoryOf(days)[i];
    }
    if i :| 0 <= i < |days| && days[i].date == date && h in HistoryOf(days)[i] {
      var s :| s in Sightings(days[i].date, days[i].sections) && s.record.ip == h;
      SightingsDate(days[i].date, days[i].sections, s);
      SightedOn(days, s);
      assert s in AllSightings(days);
    }
  }

  lemma KnownIff(days: seq<Day>, h: Host)
    ensures h in HostsOf(AllSightings(days)) <==> Known(HistoryOf(days), h)
  {
    if h in HostsOf(AllSightings(days)) {
      var s :| s in AllSightings(days) && s.record.ip == h;
      assert SeenAt(AllSightings(days), h, s.date);
      SeenAtIff(days, h, s.date);
    }
    if i :| 0 <= i < |days| && h in HistoryOf(days)[i] {
      SeenAtIff(days, h, days[i].date);
    }
  }

  /** The first and last dates of an entry are those of the first and last days with the host. */
  lemma DatesAreDays(days: seq<Day>, h: Host, e: Entry)
    requires Ascending(days) && Describes(e, h, AllSightings(days)) && Known(HistoryOf(days), h)
    ensures e.firstSeen == days[First(HistoryOf(days), h)].date
    ensures e.lastSeen == days[Last(HistoryOf(days), h)].date
  {
    hide Ports, Probes, Statuses, HistoryOf, AllSightings;
    var seen := HistoryOf(days);
    var all := AllSightings(days);
    var f, l := First(seen, h), Last(seen, h);
    SeenAtIff(days, h, e.firstSeen);
    SeenAtIff(days, h, e.lastSeen);
    SeenAtIff(days, h, days[f].date);
    SeenAtIff(days, h, days[l].date);
    var a :| 0 <= a < |days| && days[a].date == e.firstSeen && h in seen[a];
    var b :| 0 <= b < |days| && days[b].date == e.lastSeen && h in seen[b];
    assert f <= a && b <= l;
    assert e.firstSeen <= days[f].date && days[l].date <= e.lastSeen by {
      var s :| s in all && s.record.ip == h && s.date == days[f].date;
      var t :| t in all && t.record.ip == h && t.date == days[l].date;
    }
  }

  lemma {:induction false} DatesCounted(days: seq<Day>, h: Host)
    ensures |DatesOf(days, h)| == DaysObserved(HistoryOf(days), h)
  {
    if days != [] {
      var n := |days| - 1;
      DatesCounted(days[..n], h);
      assert HistoryOf(days)[..n] == HistoryOf(days[..n]);
      DaysOfPrefix(HistoryOf(days), h, n, n);
    }
  }

  lemma {:induction false} DaysOfPrefix(seen: History, h: Host, n: nat, limit: nat)
    requires limit <= n <= |seen|
    ensures Days(seen[..n], h, 0, limit) == Days(seen, h, 0, limit)
    decreases limit
  {
    if limit > 0 {
      DaysOfPrefix(seen, h, n, limit - 1);
    }
  }

  lemma {:induction false} NoDates(days: seq<Day>, h: Host)
    requires h !in HostsOf(AllSightings(days))
    ensures DatesOf(days, h) == []
  {
    if days != [] {
      var n := |days| - 1;
      HostsJoin(AllSightings(days[..n]), Sightings(days[n].date, days[n].sections));
      NoDates(days[..n], h);
    }
  }

  // ----- the whole index

  /** The index after a prefix of the days. */
  ghost predicate IndexOf(hosts: map<Host, Entry>, days: seq<Day>) {
    Indexes(hosts, AllSightings(days)) && forall h :: h in hosts ==> hosts[h].dates == DatesOf(days, h)
  }

  /** What a row holds before new and gone are derived. */
  predicate Counted(row: DayRow, day: Day) {
    row.date == day.date && row.hostSet == SeenOn(day) && row.records == |Sightings(day.date, day.sections)|
  }

  lemma DayIndexed(days: seq<Day>, k: nat, hosts: map<Host, Entry>, read: map<Host, Entry>, marked: map<Host, Entry>)
    requires k < |days| && IndexOf(hosts, days[..k])
    requires Indexes(read, AllSightings(days[..k]) + Sightings(days[k].date, days[k].sections)) && SameDates(hosts, read)
    requires marked.Keys == read.Keys
    requires forall h :: h in read ==>
               marked[h] == if h in SeenOn(days[k]) then read[h].(dates := read[h].dates + [days[k].date]) else read[h]
    ensures IndexOf(marked, days[..k + 1])
  {
    hide Describes, HostsOf;
    assert days[..k + 1][..k] == days[..k];
    DescribesIgnoresDates(read, marked, AllSightings(days[..k + 1]));
    forall h | h in marked
      ensures marked[h].dates == DatesOf(days[..k + 1], h)
    {
      if h !in hosts {
        NoDates(days[..k], h);
      }
    }
  }

  method ReadDays(days: seq<Day>) returns (hosts: map<Host, Entry>, rows: seq<DayRow>)
    ensures IndexOf(hosts, days)
    ensures |rows| == |days| && forall i :: 0 <= i < |days| ==> Counted(rows[i], days[i])
  {
    hide Indexes, HostsOf;
    hosts, rows := map[], [];
    EmptyIndex();
    assert days[..0] == [];
    for k := 0 to |days|
      invariant IndexOf(hosts, days[..k])
      invariant |rows| == k && forall i :: 0 <= i < k ==> Counted(rows[i], days[i])
    {
      var day := days[k];
      var read, seen, records := ReadDay(day, hosts, AllSightings(days[..k]));
      SeenIsIndexed(read, AllSightings(days[..k]), Sightings(day.date, day.sections));
      var marked := MarkDates(read, seen, day.date);
      DayIndexed(days, k, hosts, read, marked);
      hosts := marked;
      rows := rows + [DayRow(day.date, records, seen, {}, {}, {}, {}, false)];
    }
    assert days[..|days|] == days;
  }

  lemma SeenIsIndexed(hosts: map<Host, Entry>, before: seq<Sighting>, today: seq<Sighting>)
    requires Indexes(hosts, before + today)
    ensures HostsOf(today) <= hosts.Keys
  {
    HostsJoin(before, today);
  }

  lemma EmptyIndex()
    ensures IndexOf(map[], [])
  {}

  /** A row with its derived sets, as the history defines them. */
  predicate Compared(row: DayRow, days: seq<Day>, i: nat)
    requires i < |days|
  {
    var seen := HistoryOf(days);
    && Counted(row, days[i])
    && row.newHosts == New(seen, i)
    && row.firstSeenHosts == FirstSeen(seen, i)
    && row.returningHosts == Returning(seen, i)
    && row.goneHosts == Gone(seen, i)
    && row.baseline == (i == 0)
  }

  /** Among a day's hosts, those first dated that day are those no earlier day had. */
  lemma FirstDated(days: seq<Day>, hosts: map<Host, Entry>, i: nat, h: Host)
    requires Ascending(days) && IndexOf(hosts, days) && i < |days| && h in HistoryOf(days)[i]
    ensures h in hosts && (hosts[h].firstSeen == days[i].date <==> !SeenBefore(HistoryOf(days), h, i))
  {
    hide Describes, HostsOf, SeenOn, HistoryOf;
    var seen := HistoryOf(days);
    assert Known(seen, h);
    KnownIff(days, h);
    DatesAreDays(days, h, hosts[h]);
    var f := First(seen, h);
    assert f <= i;
    assert f < i ==> days[f].date < days[i].date;
    assert SeenBefore(seen, h, i) <==> f < i;
  }

  method CompareDay(days: seq<Day>, hosts: map<Host, Entry>, rows: seq<DayRow>, i: nat) returns (row: DayRow)
    requires Ascending(days) && IndexOf(hosts, days) && i < |days| == |rows|
    requires forall j :: 0 <= j < |days| ==> rows[j].date == days[j].date && rows[j].hostSet == SeenOn(days[j])
    requires Counted(rows[i], days[i])
    ensures Compared(row, days, i)
  {
    hide IndexOf, Ascending, SeenOn, Known;
    ghost var seen := HistoryOf(days);
    assert seen[i] == SeenOn(days[i]) && (i > 0 ==> seen[i - 1] == SeenOn(days[i - 1]));
    var day := rows[i];
    var previous := if i > 0 then rows[i - 1].hostSet else {};
    var appeared := day.hostSet - previous;
    forall h | h in appeared
      ensures h in hosts && (hosts[h].firstSeen == day.date <==> !SeenBefore(seen, h, i))
    {
      FirstDated(days, hosts, i, h);
    }
    var firstSeen := set h | h in appeared && hosts[h].firstSeen == day.date;
    var returning := set h | h in appeared && hosts[h].firstSeen != day.date;
    row := day.(newHosts := appeared, firstSeenHosts := firstSeen, returningHosts := returning,
                goneHosts := previous - day.hostSet, baseline := i == 0);
  }

  // ----- columns of a host

  /** The columns of a host, as the history defines them. */
  ghost predicate Summarised(d: Derived, days: seq<Day>, h: Host)
    requires Known(HistoryOf(days), h)
  {
    var seen := HistoryOf(days);
    && d.daysObserved == DaysObserved(seen, h)
    && d.active == (h in seen[|seen| - 1])
    && d.span == Span(seen, h)
    && d.intermittent == Gap(seen, h)
    && d.coverage * (|days| - First(seen, h)) as real == DaysObserved(seen, h) as real
    && 0.0 < d.coverage <= 1.0
  }

  predicate Positions(position: map<nat, nat>, days: seq<Day>) {
    forall i :: 0 <= i < |days| ==> days[i].date in position && position[days[i].date] == i
  }

  method NumberDates(days: seq<Day>) returns (position: map<nat, nat>)
    requires Ascending(days)
    ensures Positions(position, days)
  {
    position := map[];
    for i := 0 to |days|
      invariant forall j :: 0 <= j < i ==> days[j].date in position && position[days[j].date] == j
    {
      position := position[days[i].date := i];
    }
  }

  method Derive(e: Entry, position: map<nat, nat>, total: nat, latest: nat) returns (d: Derived)
    requires e.firstSeen in position && e.lastSeen in position
    requires 0 < |e.dates| <= total - position[e.firstSeen]
    ensures d.daysObserved == |e.dates| && d.active == (e.lastSeen == latest)
    ensures d.span == position[e.lastSeen] as int - position[e.firstSeen] + 1
    ensures d.intermittent == (d.daysObserved < d.span)
    ensures d.coverage * (total - position[e.firstSeen]) as real == |e.dates| as real && 0.0 < d.coverage <= 1.0
  {
    var daysObserved := |e.dates|;
    var firstIndex := position[e.firstSeen];
    var possible := total - firstIndex;
    var coverage := if possible != 0 then daysObserved as real / possible as real else 0.0;
    Ratio(daysObserved, possible);
    var span := position[e.lastSeen] as int - firstIndex + 1;
    return Derived(daysObserved, e.lastSeen == latest, coverage, span, daysObserved < span);
  }

  method Summarise(days: seq<Day>, e: Entry, position: map<nat, nat>, ghost h: Host) returns (d: Derived)
    requires Ascending(days) && Positions(position, days) && days != []
    requires Known(HistoryOf(days), h) && Describes(e, h, AllSightings(days)) && e.dates == DatesOf(days, h)
    ensures Summarised(d, days, h)
  {
    hide Describes, HistoryOf, DaysObserved, Gap, Known, Ascending, DatesOf;
    ghost var seen := HistoryOf(days);
    DatesAreDays(days, h, e);
    DatesCounted(days, h);
    ObservedWithinSpan(seen, h);
    CoverageBounds(seen, h);
    LastIsActive(days, h);
    d := Derive(e, position, |days|, days[|days| - 1].date);
  }

  lemma Ratio(a: nat, b: int)
    requires 0 < a <= b
    ensures 0.0 < a as real / b as real <= 1.0 && (a as real / b as real) * b as real == a as real
  {}

  lemma LastIsActive(days: seq<Day>, h: Host)
    requires Ascending(days) && Known(HistoryOf(days), h) && days != []
    ensures days[Last(HistoryOf(days), h)].date == days[|days| - 1].date <==> h in HistoryOf(days)[|days| - 1]
  {
    var l := Last(HistoryOf(days), h);
    assert l < |days| - 1 ==> days[l].date < days[|days| - 1].date;
  }

  /** The whole overview, as the history defines it. */
  ghost predicate Describing(o: Overview, days: seq<Day>) {
    && |o.perDate| == |days| && (forall i :: 0 <= i < |days| ==> Compared(o.perDate[i], days, i))
    && IndexOf(o.hosts, days)
    && o.derived.Keys == o.hosts.Keys
    && (forall h :: h in o.hosts <==> Known(HistoryOf(days), h))
    && (forall h :: h in o.hosts ==> Summarised(o.derived[h], days, h))
  }

  /** `build_overview`, on dates in ascending order. */
  method BuildOverview(days: seq<Day>) returns (o: Overview)
    requires Ascending(days)
    ensures Describing(o, days)
  {
    hide Compared, Summarised, Describes, Ascending, Positions, Known;
    var position := NumberDates(days);
    var hosts, rows := ReadDays(days);
    var perDate: seq<DayRow> := [];
    for i := 0 to |rows|
      invariant |perDate| == i && forall j :: 0 <= j < i ==> Compared(perDate[j], days, j)
    {
      var row := CompareDay(days, hosts, rows, i);
      perDate := perDate + [row];
    }
    forall h
      ensures h in hosts <==> Known(HistoryOf(days), h)
    {
      KnownIff(days, h);
    }
    var derived: map<Host, Derived> := map[];
    var rest := hosts.Keys;
    while rest != {}
      invariant rest <= hosts.Keys && derived.Keys == hosts.Keys - rest
      invariant forall h :: h in derived ==> Summarised(derived[h], days, h)
      decreases rest
    {
      var h :| h in rest;
      KnownDays(days, h);
      var d := Summarise(days, hosts[h], position, h);
      derived := derived[h := d];
      rest := rest - {h};
    }
    o := Overview(perDate, hosts, derived);
  }

  lemma KnownDays(days: seq<Day>, h: Host)
    requires Known(HistoryOf(days), h)
    ensures days != []
  {}

  // ----- laws of a built overview

  /** A day's new hosts are its first-seen and its returning ones, without overlap. */
  lemma NewAreFirstSeenOrReturning(o: Overview, days: seq<Day>, i: nat)
    requires Describing(o, days) && i < |days|
    ensures o.perDate[i].newHosts == o.perDate[i].firstSeenHosts + o.perDate[i].returningHosts
    ensures o.perDate[i].firstSeenHosts !! o.perDate[i].returningHosts
  {
    hide IndexOf, Summarised, HistoryOf, Counted;
    assert Compared(o.perDate[i], days, i);
    NewSplits(HistoryOf(days), i);
  }

  /** A record in a section of a day: its host is indexed with its date, port, probe and status. */
  lemma RecordIsIndexed(o: Overview, days: seq<Day>, i: nat, section: Section, r: Record)
    requires Describing(o, days) && i < |days| && section in days[i].sections && r in section.records
    ensures r.ip in o.hosts
    ensures var e := o.hosts[r.ip];
            && e.firstSeen <= days[i].date <= e.lastSeen && r.port in e.ports
            && (r.probe != "" ==> r.probe in e.probes) && (r.probe == "" ==> section.name in e.probes)
            && (r.status != "" ==> r.status in e.statuses)
  {
    hide Compared, Summarised, HistoryOf, Known;
    var s := Sighting(days[i].date, section.name, r);
    SectionSighted(days[i], section, r);
    DaySighted(days, i, s);
  }

  lemma {:induction false} SectionsSighted(date: nat, sections: seq<Section>, section: Section, r: Record)
    requires section in sections && r in section.records
    ensures Sighting(date, section.name, r) in Sightings(date, sections)
  {
    var n := |sections| - 1;
    if section == sections[n] {
      var k :| 0 <= k < |section.records| && section.records[k] == r;
      assert SectionSightings(date, section)[k] == Sighting(date, section.name, r);
    } else {
      var k :| 0 <= k < |sections| && sections[k] == section;
      assert sections[..n][k] == section;
      SectionsSighted(date, sections[..n], section, r);
    }
  }

  lemma SectionSighted(day: Day, section: Section, r: Record)
    requires section in day.sections && r in section.records
    ensures Sighting(day.date, section.name, r) in Sightings(day.date, day.sections)
  {
    SectionsSighted(day.date, day.sections, section, r);
  }

  lemma {:induction false} DaySighted(days: seq<Day>, i: nat, s: Sighting)
    requires i < |days| && s in Sightings(days[i].date, days[i].sections)
    ensures s in AllSightings(days)
  {
    hide Sightings;
    if i < |days| - 1 {
      DaySighted(days[..|days| - 1], i, s);
    }
  }

  /** Every host of the index is first-seen on one day, and on one only. */
  lemma FirstSeenOnOneDay(o: Overview, days: seq<Day>, h: Host) returns (day: nat)
    requires Describing(o, days) && h in o.hosts
    ensures day < |days| && forall i :: 0 <= i < |days| ==> (h in o.perDate[i].firstSeenHosts <==> i == day)
  {
    hide IndexOf, Summarised, HistoryOf, Counted, FirstSeen;
    day := First(HistoryOf(days), h);
    forall i | 0 <= i < |days|
      ensures h in o.perDate[i].firstSeenHosts <==> i == day
    {
      assert Compared(o.perDate[i], days, i);
      FirstSeenOnce(HistoryOf(days), h, i);
    }
  }

  /** The column `intermittent` marks exactly the hosts that some day lists as returning. */
  lemma IntermittentAreReturning(o: Overview, days: seq<Day>, h: Host)
    requires Describing(o, days) && h in o.hosts
    ensures o.derived[h].intermittent <==> exists i :: 0 <= i < |days| && h in o.perDate[i].returningHosts
    ensures o.derived[h].daysObserved <= o.derived[h].span
  {
    hide Describing, Returning, Gap, DaysObserved, Span, Known, HistoryOf;
    ColumnsOf(o, days, h);
    ReturningOf(o, days);
    var seen := HistoryOf(days);
    ObservedWithinSpan(seen, h);
    IntermittentIffReturns(seen, h);
    if i :| 0 <= i < |days| && h in o.perDate[i].returningHosts {
      assert h in Returning(seen, i);
    }
  }

  lemma ColumnsOf(o: Overview, days: seq<Day>, h: Host)
    requires Describing(o, days) && h in o.hosts
    ensures Known(HistoryOf(days), h) && h in o.derived
    ensures o.derived[h].daysObserved == DaysObserved(HistoryOf(days), h) && o.derived[h].span == Span(HistoryOf(days), h)
    ensures o.derived[h].intermittent == Gap(HistoryOf(days), h)
  {
    hide HistoryOf, IndexOf, Compared, Gap, DaysObserved, Span;
    assert Summarised(o.derived[h], days, h);
  }

  lemma ReturningOf(o: Overview, days: seq<Day>)
    requires Describing(o, days)
    ensures |o.perDate| == |days|
    ensures forall i :: 0 <= i < |days| ==> o.perDate[i].returningHosts == Returning(HistoryOf(days), i)
  {
    hide HistoryOf, IndexOf, Summarised, Counted, Returning, Known, New, FirstSeen, Gone;
  }

  function SumNew(rows: seq<DayRow>): nat {
    if rows == [] then 0 else SumNew(rows[..|rows| - 1]) + |rows[|rows| - 1].newHosts|
  }

  function SumGone(rows: seq<DayRow>): nat {
    if rows == [] then 0 else SumGone(rows[..|rows| - 1]) + |rows[|rows| - 1].goneHosts|
  }

  lemma ComparedSets(row: DayRow, days: seq<Day>, i: nat)
    requires i < |days| && Compared(row, days, i)
    ensures row.newHosts == New(HistoryOf(days), i) && row.goneHosts == Gone(HistoryOf(days), i)
  {
    hide HistoryOf, Counted, New, Gone, FirstSeen, Returning;
  }

  lemma PrefixSets(seen: History, k: nat)
    requires 0 < k <= |seen|
    ensures New(seen[..k], k - 1) == New(seen, k - 1) && Gone(seen[..k], k - 1) == Gone(seen, k - 1)
  {}

  lemma {:induction false} SumsAreTotals(rows: seq<DayRow>, days: seq<Day>, k: nat)
    requires |rows| == |days| && k <= |days| && forall i :: 0 <= i < |days| ==> Compared(rows[i], days, i)
    ensures SumNew(rows[..k]) == TotalNew(HistoryOf(days)[..k]) && SumGone(rows[..k]) == TotalGone(HistoryOf(days)[..k])
  {
    hide HistoryOf, Compared, New, Gone;
    if k > 0 {
      SumsAreTotals(rows, days, k - 1);
      var seen := HistoryOf(days);
      assert rows[..k][..k - 1] == rows[..k - 1] && seen[..k][..k - 1] == seen[..k - 1];
      ComparedSets(rows[k - 1], days, k - 1);
      PrefixSets(seen, k);
    }
  }

  /** All hosts gained, less all hosts lost, are the hosts the index calls active. */
  lemma BalanceIsActive(o: Overview, days: seq<Day>)
    requires Describing(o, days)
    ensures SumNew(o.perDate) - SumGone(o.perDate) == |set h | h in o.hosts && o.derived[h].active|
  {
    hide HistoryOf, IndexOf, Compared, Gap, DaysObserved, Span, TotalNew, TotalGone;
    var seen := HistoryOf(days);
    SumsAreTotals(o.perDate, days, |days|);
    assert o.perDate[..|days|] == o.perDate && seen[..|days|] == seen;
    NewLessGoneIsActive(seen);
    var active := set h | h in o.hosts && o.derived[h].active;
    forall h | h in o.hosts
      ensures o.derived[h].active <==> h in seen[|seen| - 1]
    {
      assert Summarised(o.derived[h], days, h);
    }
    if seen == [] {
      assert active == {};
    } else {
      assert forall h :: h in seen[|seen| - 1] ==> Known(seen, h);
      assert active == seen[|seen| - 1];
    }
  }
}
