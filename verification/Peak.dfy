/** The lock-free peak of admitted associations (the compare-and-swap loop of
    recordConnectUDPAdmissionAccepted in native_udp_metrics.go), for the associations of one handler. */
module Peak {
  import opened Net
  import opened Admission

  /** A recorder about to load; holding the loaded peak; done. */
  datatype Recorder = Loading(active: int) | Comparing(active: int, peak: int) | Finished(active: int)

  datatype State = State(book: Book, recorders: seq<Recorder>, peak: int)

  datatype Label = Admit(client: string) | Free(id: nat) | Load(i: nat) | Swap(i: nat)

  const INITIAL := State(EMPTY_BOOK, [], 0)

  predicate Enabled(s: State, l: Label) {
    match l
    case Admit(_) => true
    case Free(id) => id in s.book.tickets
    case Load(i) => i < |s.recorders| && s.recorders[i].Loading?
    case Swap(i) => i < |s.recorders| && s.recorders[i].Comparing?
  }

  /** A recorder starts for each accepted association, with the count read under the lock. */
  function Apply(limits: Limits, s: State, l: Label): State
    requires Enabled(s, l)
  {
    match l
    case Admit(client) =>
      var b := Acquired(limits, s.book, client);
      if Refused(limits, s.book, client) then s.(book := b)
      else s.(book := b, recorders := s.recorders + [Loading(b.active)])
    case Free(id) => s.(book := Released(s.book, id))
    case Load(i) => s.(recorders := s.recorders[i := Comparing(s.recorders[i].active, s.peak)])
    case Swap(i) =>
      var r := s.recorders[i];
      if r.active <= r.peak then s.(recorders := s.recorders[i := Finished(r.active)])
      else if s.peak == r.peak then s.(peak := r.active, recorders := s.recorders[i := Finished(r.active)])
      else s.(recorders := s.recorders[i := Loading(r.active)])
  }

  ghost predicate IsRun(limits: Limits, s: State, labels: seq<Label>, t: State)
    decreases |labels|
  {
    if labels == [] then s == t else Enabled(s, labels[0]) && IsRun(limits, Apply(limits, s, labels[0]), labels[1..], t)
  }

  /** The largest number of simultaneously held tickets along a run. */
  ghost function MostHeld(limits: Limits, s: State, labels: seq<Label>, t: State): int
    requires IsRun(limits, s, labels, t)
    decreases |labels|
  {
    if labels == [] then |Held(s.book)|
    else Max(|Held(s.book)|, MostHeld(limits, Apply(limits, s, labels[0]), labels[1..], t))
  }

  /** m is the most held so far: it is the peak already, or an unfinished recorder carries it. */
  ghost predicate Inv(limits: Limits, s: State, m: int) {
    Conserved(limits, s.book) && s.peak <= m && |Held(s.book)| <= m &&
    (forall i :: 0 <= i < |s.recorders| ==> s.recorders[i].active <= m) &&
    (forall i :: 0 <= i < |s.recorders| && s.recorders[i].Finished? ==> s.recorders[i].active <= s.peak) &&
    (forall i :: 0 <= i < |s.recorders| && s.recorders[i].Comparing? ==> s.recorders[i].peak <= s.peak) &&
    (s.peak == m || exists i :: 0 <= i < |s.recorders| && !s.recorders[i].Finished? && s.recorders[i].active == m)
  }

  lemma {:induction false} AdmitKeepsInv(limits: Limits, s: State, client: string, m: int)
    requires Inv(limits, s, m)
    ensures var t := Apply(limits, s, Admit(client)); Inv(limits, t, Max(m, |Held(t.book)|))
  {
    AcquireConserves(limits, s.book, client);
    var t := Apply(limits, s, Admit(client));
    var m' := Max(m, |Held(t.book)|);
    if !Refused(limits, s.book, client) {
      assert t.recorders[|s.recorders|].active == t.book.active == |Held(t.book)|;
      if m' == m && s.peak != m {
        var i :| 0 <= i < |s.recorders| && !s.recorders[i].Finished? && s.recorders[i].active == m;
        assert t.recorders[i] == s.recorders[i];
      }
    }
  }

  lemma {:induction false} FreeKeepsInv(limits: Limits, s: State, id: nat, m: int)
    requires Inv(limits, s, m) && id in s.book.tickets
    ensures var t := Apply(limits, s, Free(id)); Inv(limits, t, m) && |Held(t.book)| <= m
  {
    ReleaseConserves(limits, s.book, id);
  }

  lemma {:induction false} RecorderKeepsInv(limits: Limits, s: State, l: Label, m: int)
    requires Inv(limits, s, m) && Enabled(s, l) && (l.Load? || l.Swap?)
    ensures Inv(limits, Apply(limits, s, l), m)
  {
    var t := Apply(limits, s, l);
    if s.peak != m && t.peak != m {
      var j :| 0 <= j < |s.recorders| && !s.recorders[j].Finished? && s.recorders[j].active == m;
      assert !t.recorders[j].Finished? && t.recorders[j].active == m;
    }
  }

  lemma {:induction false} StepKeepsInv(limits: Limits, s: State, l: Label, m: int)
    requires Inv(limits, s, m) && Enabled(s, l)
    ensures var t := Apply(limits, s, l); Inv(limits, t, Max(m, |Held(t.book)|))
    ensures s.peak <= Apply(limits, s, l).peak
  {
    match l
    case Admit(client) => AdmitKeepsInv(limits, s, client, m);
    case Free(id) => FreeKeepsInv(limits, s, id, m);
    case Load(_) => RecorderKeepsInv(limits, s, l, m);
    case Swap(_) => RecorderKeepsInv(limits, s, l, m);
  }

  lemma {:induction false} RunKeepsInv(limits: Limits, s: State, labels: seq<Label>, t: State, m: int)
    requires Inv(limits, s, m) && IsRun(limits, s, labels, t)
    ensures Inv(limits, t, Max(m, MostHeld(limits, s, labels, t))) && s.peak <= t.peak
    decreases |labels|
  {
    if labels != [] {
      StepKeepsInv(limits, s, labels[0], m);
      var u := Apply(limits, s, labels[0]);
      RunKeepsInv(limits, u, labels[1..], t, Max(m, |Held(u.book)|));
      HeldAtStart(limits, u, labels[1..], t);
    }
  }

  lemma {:induction false} HeldAtStart(limits: Limits, s: State, labels: seq<Label>, t: State)
    requires IsRun(limits, s, labels, t)
    ensures |Held(s.book)| <= MostHeld(limits, s, labels, t)
  {
  }

  lemma InitialInv(limits: Limits)
    ensures Inv(limits, INITIAL, 0)
  {
    EmptyBookConserved(limits);
    assert Held(INITIAL.book) == {};
  }

  /** For every interleaving the peak never decreases, and once all recorders have finished it equals the
      largest number of simultaneously held tickets. */
  lemma {:induction false} PeakIsMostHeld(limits: Limits, labels: seq<Label>, s: State, more: seq<Label>, t: State)
    requires IsRun(limits, INITIAL, labels, s) && IsRun(limits, s, more, t)
    ensures s.peak <= t.peak
    ensures (forall i :: 0 <= i < |s.recorders| ==> s.recorders[i].Finished?) ==> s.peak == MostHeld(limits, INITIAL, labels, s)
  {
    InitialInv(limits);
    RunKeepsInv(limits, INITIAL, labels, s, 0);
    var m := Max(0, MostHeld(limits, INITIAL, labels, s));
    RunKeepsInv(limits, s, more, t, m);
  }

  /** A failed swap means another recorder raised the peak since the load, so some recorder always gets on. */
  lemma {:induction false} RetryMeansProgress(limits: Limits, labels: seq<Label>, s: State, i: nat)
    requires IsRun(limits, INITIAL, labels, s) && Enabled(s, Swap(i))
    requires Apply(limits, s, Swap(i)).recorders[i].Loading?
    ensures s.peak > s.recorders[i].peak && Apply(limits, s, Swap(i)).peak == s.peak
  {
    InitialInv(limits);
    RunKeepsInv(limits, INITIAL, labels, s, 0);
  }
}
