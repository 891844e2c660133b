/**
  The cleanup window around the size scan: the entries it lists, which of them show a spinner, and how
  the results the threads log reach them.
*/
module CleanupView {
  import opened Wrappers
  import SizeScan

  datatype Entry = Entry(name: string, size: Option<nat>, scanning: bool)

  /** A directory to measure, with the size measuring it will give. */
  datatype Job = Job(name: string, size: nat)

  predicate DistinctNames(entries: seq<Entry>) {
    forall i, j :: 0 <= i < j < |entries| ==> entries[i].name != entries[j].name
  }

  predicate DistinctJobs(jobs: seq<Job>) {
    forall i, j :: 0 <= i < j < |jobs| ==> jobs[i].name != jobs[j].name
  }

  /** Give a result to the first entry of that name, if there is one. */
  function Receive(entries: seq<Entry>, r: Job): (es: seq<Entry>)
    ensures |es| == |entries|
  {
    if entries == [] then []
    else if entries[0].name == r.name then [entries[0].(size := Some(r.size), scanning := false)] + entries[1..]
    else [entries[0]] + Receive(entries[1..], r)
  }

  function ReceiveAll(entries: seq<Entry>, rs: seq<Job>): (es: seq<Entry>)
    ensures |es| == |entries|
    decreases |rs|
  {
    if rs == [] then entries else ReceiveAll(Receive(entries, rs[0]), rs[1..])
  }

  /** One job for each listed entry whose directory exists. */
  function JobsFor(entries: seq<Entry>, sizes: map<string, nat>): (jobs: seq<Job>)
  {
    if entries == [] then []
    else (if entries[0].name in sizes then [Job(entries[0].name, sizes[entries[0].name])] else [])
         + JobsFor(entries[1..], sizes)
  }

  function Listed(e: Entry, sizes: map<string, nat>): Entry {
    if e.name in sizes then e else e.(scanning := false)
  }

  class CleanupView {
    var entries: seq<Entry>
    var results: seq<Job>

    constructor (names: seq<string>)
      ensures results == [] && |entries| == |names|
      ensures forall i :: 0 <= i < |names| ==> entries[i] == Entry(names[i], None, true)
    {
      entries := seq(|names|, i requires 0 <= i < |names| => Entry(names[i], None, true));
      results := [];
    }

    method StartSizeScan(sizes: map<string, nat>) returns (jobs: seq<Job>)
      modifies `entries
      ensures jobs == JobsFor(old(entries), sizes)
      ensures |entries| == |old(entries)|
      ensures forall i :: 0 <= i < |entries| ==> entries[i] == Listed(old(entries)[i], sizes)
    {
      jobs := [];
      for i := |entries| downto 0
        invariant jobs == JobsFor(entries[i..], sizes)
      {
        if entries[i].name in sizes {
          jobs := [Job(entries[i].name, sizes[entries[i].name])] + jobs;
        }
      }
      for i := 0 to |entries|
        invariant |entries| == |old(entries)|
        invariant forall j :: 0 <= j < i ==> entries[j] == Listed(old(entries)[j], sizes)
        invariant forall j :: i <= j < |entries| ==> entries[j] == old(entries)[j]
      {
        if entries[i].name !in sizes {
          entries := entries[i := entries[i].(scanning := false)];
        }
      }
    }

    method DrainResults()
      modifies this
      ensures results == [] && entries == ReceiveAll(old(entries), old(results))
    {
      var drained := results;
      results := [];
      for i := 0 to |drained|
        invariant results == []
        invariant ReceiveAll(entries, drained[i..]) == ReceiveAll(old(entries), drained)
      {
        entries := Receive(entries, drained[i]);
        assert drained[i..][1..] == drained[i + 1..];
      }
    }
  }

  // ---- the window and the threads together ----

  datatype Window = Window(jobs: seq<Job>, scan: SizeScan.Scan, entries: seq<Entry>)

  datatype Step = Thread(m: SizeScan.Step) | Poll | Delete(names: set<string>)

  /** The log of job numbers, read as the results the threads pushed. */
  function Named(jobs: seq<Job>, ids: seq<nat>): (rs: seq<Job>)
    requires forall i :: 0 <= i < |ids| ==> ids[i] < |jobs|
    ensures |rs| == |ids| && forall i :: 0 <= i < |ids| ==> rs[i] == jobs[ids[i]]
  {
    seq(|ids|, i requires 0 <= i < |ids| => jobs[ids[i]])
  }

  function Kept(entries: seq<Entry>, names: set<string>): seq<Entry> {
    if entries == [] then []
    else (if entries[0].name in names then [] else [entries[0]]) + Kept(entries[1..], names)
  }

  ghost predicate Enabled(w: Window, m: Step) {
    m.Thread? ==> m.m != SizeScan.Drain && SizeScan.Enabled(w.scan, m.m)
  }

  /** An entry spins until its job's result is drained, and then shows that result. */
  ghost predicate EntryOk(e: Entry, jobs: seq<Job>, drained: seq<nat>) {
    && (forall t :: 0 <= t < |jobs| && jobs[t].name == e.name ==>
          if t in drained then !e.scanning && e.size == Some(jobs[t].size) else e.scanning && e.size == None)
    && ((forall t :: 0 <= t < |jobs| ==> jobs[t].name != e.name) ==> !e.scanning && e.size == None)
  }

  ghost predicate EntriesOk(entries: seq<Entry>, jobs: seq<Job>, drained: seq<nat>) {
    DistinctNames(entries) && forall i :: 0 <= i < |entries| ==> EntryOk(entries[i], jobs, drained)
  }

  ghost predicate Inv(w: Window) {
    && SizeScan.Inv(w.scan) && |w.scan.pcs| == |w.jobs| && DistinctJobs(w.jobs)
    && EntriesOk(w.entries, w.jobs, w.scan.drained)
  }

  ghost function Apply(w: Window, m: Step): Window
    requires Inv(w) && Enabled(w, m)
  {
    match m
    case Thread(m) => w.(scan := SizeScan.Apply(w.scan, m))
    case Poll =>
      assert forall i :: 0 <= i < |w.scan.results| ==> w.scan.results[i] in w.scan.drained + w.scan.results;
      w.(scan := SizeScan.Apply(w.scan, SizeScan.Drain),
         entries := ReceiveAll(w.entries, Named(w.jobs, w.scan.results)))
    case Delete(names) => w.(entries := Kept(w.entries, names))
  }

  lemma {:induction false} ReceiveUpdates(entries: seq<Entry>, r: Job, i: nat)
    requires DistinctNames(entries) && i < |entries|
    ensures Receive(entries, r)[i] ==
            if entries[i].name == r.name then entries[i].(size := Some(r.size), scanning := false) else entries[i]
  {
    if i > 0 && entries[0].name != r.name {
      ReceiveUpdates(entries[1..], r, i - 1);
    }
  }

  lemma ReceiveKeepsOk(entries: seq<Entry>, jobs: seq<Job>, drained: seq<nat>, t: nat)
    requires EntriesOk(entries, jobs, drained) && DistinctJobs(jobs) && t < |jobs|
    ensures EntriesOk(Receive(entries, jobs[t]), jobs, drained + [t])
  {
    var es := Receive(entries, jobs[t]);
    forall i | 0 <= i < |entries|
      ensures es[i].name == entries[i].name && EntryOk(es[i], jobs, drained + [t])
    {
      ReceiveUpdates(entries, jobs[t], i);
      assert EntryOk(entries[i], jobs, drained);
    }
  }

  lemma {:induction false} ReceiveAllKeepsOk(entries: seq<Entry>, jobs: seq<Job>, drained: seq<nat>, ids: seq<nat>)
    requires EntriesOk(entries, jobs, drained) && DistinctJobs(jobs)
    requires forall i :: 0 <= i < |ids| ==> ids[i] < |jobs|
    ensures EntriesOk(ReceiveAll(entries, Named(jobs, ids)), jobs, drained + ids)
    decreases |ids|
  {
    if ids == [] {
      assert drained + ids == drained;
    } else {
      ReceiveKeepsOk(entries, jobs, drained, ids[0]);
      ReceiveAllKeepsOk(Receive(entries, jobs[ids[0]]), jobs, drained + [ids[0]], ids[1..]);
      assert Named(jobs, ids)[1..] == Named(jobs, ids[1..]);
      assert drained + [ids[0]] + ids[1..] == drained + ids;
    }
  }

  lemma {:induction false} KeptAreEntries(entries: seq<Entry>, names: set<string>)
    requires DistinctNames(entries)
    ensures DistinctNames(Kept(entries, names))
    ensures forall e :: e in Kept(entries, names) <==> e in entries && e.name !in names
  {
    if entries != [] {
      KeptAreEntries(entries[1..], names);
      forall i | 0 <= i < |Kept(entries[1..], names)|
        ensures Kept(entries[1..], names)[i].name != entries[0].name
      {
        assert Kept(entries[1..], names)[i] in entries[1..];
      }
    }
  }

  /** A deletion takes the named entries off the list and nothing else; polling and threads take none off. */
  lemma OnlyDeletionRemoves(w: Window, m: Step, e: Entry)
    requires Inv(w) && Enabled(w, m)
    ensures m.Delete? ==> (e in Apply(w, m).entries <==> e in w.entries && e.name !in m.names)
    ensures m.Delete? ==> Apply(w, m).scan == w.scan
    ensures m.Thread? ==> Apply(w, m).entries == w.entries && Apply(w, m).scan == SizeScan.Apply(w.scan, m.m)
    ensures m.Poll? ==> |Apply(w, m).entries| == |w.entries| && Apply(w, m).scan.results == []
  {
    if m.Delete? { KeptAreEntries(w.entries, m.names); }
  }

  lemma StepKeepsInv(w: Window, m: Step)
    requires Inv(w) && Enabled(w, m)
    ensures Inv(Apply(w, m))
  {
    match m
    case Thread(m) => SizeScan.StepKeepsInv(w.scan, m);
    case Poll =>
      SizeScan.StepKeepsInv(w.scan, SizeScan.Drain);
      assert forall i :: 0 <= i < |w.scan.results| ==> w.scan.results[i] in w.scan.drained + w.scan.results;
      ReceiveAllKeepsOk(w.entries, w.jobs, w.scan.drained, w.scan.results);
    case Delete(names) =>
      KeptAreEntries(w.entries, names);
      forall i | 0 <= i < |Kept(w.entries, names)|
        ensures EntryOk(Kept(w.entries, names)[i], w.jobs, w.scan.drained)
      {
        assert Kept(w.entries, names)[i] in w.entries;
      }
  }

  /** Once every thread is done, one more poll leaves no spinner and shows every measured size. */
  lemma FinalPollStopsSpinning(w: Window)
    requires Inv(w) && SizeScan.AllDone(w.scan)
    ensures forall e :: e in Apply(w, Poll).entries ==>
              && !e.scanning
              && (forall t :: 0 <= t < |w.jobs| && w.jobs[t].name == e.name ==> e.size == Some(w.jobs[t].size))
  {
    StepKeepsInv(w, Poll);
    var w' := Apply(w, Poll);
    forall e | e in w'.entries
      ensures !e.scanning
      ensures forall t :: 0 <= t < |w.jobs| && w.jobs[t].name == e.name ==> e.size == Some(w.jobs[t].size)
    {
      assert EntryOk(e, w.jobs, w'.scan.drained);
      forall t | 0 <= t < |w.jobs| ensures t in w'.scan.drained {
        assert multiset(w'.scan.drained + w'.scan.results)[t] == 1;
        assert w'.scan.drained + w'.scan.results == w'.scan.drained;
      }
    }
  }

  /** The polling condition: something spins exactly while a listed job's result has not been drained. */
  lemma PollingStopsWhenDrained(w: Window)
    requires Inv(w)
    ensures (exists e :: e in w.entries && e.scanning) <==>
            exists i, t :: 0 <= i < |w.entries| && 0 <= t < |w.jobs| && w.jobs[t].name == w.entries[i].name
                           && t !in w.scan.drained
  {
    if i, t :| 0 <= i < |w.entries| && 0 <= t < |w.jobs| && w.jobs[t].name == w.entries[i].name
               && t !in w.scan.drained {
      assert EntryOk(w.entries[i], w.jobs, w.scan.drained);
    } else {
      forall e | e in w.entries ensures !e.scanning {
        assert EntryOk(e, w.jobs, w.scan.drained);
      }
    }
  }

  lemma {:induction false} JobsAreListed(entries: seq<Entry>, sizes: map<string, nat>)
    requires DistinctNames(entries)
    ensures DistinctJobs(JobsFor(entries, sizes))
    ensures forall j :: j in JobsFor(entries, sizes) ==> j.name in sizes && exists e :: e in entries && e.name == j.name
    ensures forall e :: e in entries && e.name in sizes ==> Job(e.name, sizes[e.name]) in JobsFor(entries, sizes)
  {
    if entries != [] {
      JobsAreListed(entries[1..], sizes);
      var rest := JobsFor(entries[1..], sizes);
      forall j | 0 <= j < |rest| ensures rest[j].name != entries[0].name {
        assert rest[j] in rest;
      }
    }
  }

  /** What starting a scan leaves behind satisfies the invariant. */
  lemma StartOk(names: seq<string>, entries: seq<Entry>, sizes: map<string, nat>, entries': seq<Entry>)
    requires DistinctNames(entries) && |entries'| == |entries|
    requires forall e :: e in entries ==> e.scanning && e.size == None
    requires forall i :: 0 <= i < |entries| ==> entries'[i] == Listed(entries[i], sizes)
    ensures var jobs := JobsFor(entries, sizes); Inv(Window(jobs, SizeScan.Init(|jobs|), entries'))
  {
    var jobs := JobsFor(entries, sizes);
    JobsAreListed(entries, sizes);
    SizeScan.InitOk(|jobs|);
    forall i | 0 <= i < |entries'| ensures EntryOk(entries'[i], jobs, []) {
      var e := entries[i];
      assert e in entries;
      if e.name in sizes {
        var t :| 0 <= t < |jobs| && jobs[t] == Job(e.name, sizes[e.name]);
      } else {
        forall t | 0 <= t < |jobs| ensures jobs[t].name != e.name {
          assert jobs[t] in jobs;
        }
      }
    }
  }

  ghost predicate EnabledRun(w: Window, ms: seq<Step>)
    requires Inv(w)
    decreases |ms|
  {
    ms == [] || (Enabled(w, ms[0]) && (StepKeepsInv(w, ms[0]); EnabledRun(Apply(w, ms[0]), ms[1..])))
  }

  ghost function Run(w: Window, ms: seq<Step>): (w': Window)
    requires Inv(w) && EnabledRun(w, ms)
    ensures Inv(w') && w'.jobs == w.jobs
    decreases |ms|
  {
    if ms == [] then w else StepKeepsInv(w, ms[0]); Run(Apply(w, ms[0]), ms[1..])
  }

  /** However threads, polls and deletions interleave: when the threads are done, the next poll is the last. */
  lemma ScanEndsSpinning(w: Window, ms: seq<Step>)
    requires Inv(w) && EnabledRun(w, ms) && SizeScan.AllDone(Run(w, ms).scan)
    ensures forall e :: e in Apply(Run(w, ms), Poll).entries ==>
              && !e.scanning
              && (forall t :: 0 <= t < |w.jobs| && w.jobs[t].name == e.name ==> e.size == Some(w.jobs[t].size))
  {
    FinalPollStopsSpinning(Run(w, ms));
  }
}
