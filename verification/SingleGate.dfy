/** scull_single.c: an atomic counter admits one open at a time. Any number of openers
    take their steps in any order; each atomic operation is one step. */
module SingleGate {
  /** One attempt to open, from its decrement to the increment that undoes it. */
  type Attempt = nat
  datatype Stage = BackingOff | Opening | Holding | GivingUp

  /** Attempts that are not in the map have not started or are over. */
  datatype State = State(available: int, at: map<Attempt, Stage>)

  datatype Event =
    | Try       // atomic_dec_and_test
    | BackOff   // the increment before -EBUSY
    | Opened    // the inner open succeeds
    | OpenFails // the inner open fails
    | Undo      // the increment after that
    | Close     // the increment of release

  predicate Init(s: State) {
    s == State(1, map[])
  }

  predicate Admits(s: State) {
    s.available - 1 == 0
  }

  predicate Step(s: State, t: Attempt, e: Event, s': State) {
    match e
    case Try => t !in s.at && s' == State(s.available - 1, s.at[t := if Admits(s) then Opening else BackingOff])
    case BackOff => t in s.at && s.at[t].BackingOff? && s' == State(s.available + 1, s.at - {t})
    case Opened => t in s.at && s.at[t].Opening? && s' == s.(at := s.at[t := Holding])
    case OpenFails => t in s.at && s.at[t].Opening? && s' == s.(at := s.at[t := GivingUp])
    case Undo => t in s.at && s.at[t].GivingUp? && s' == State(s.available + 1, s.at - {t})
    case Close => t in s.at && s.at[t].Holding? && s' == State(s.available + 1, s.at - {t})
  }

  datatype Act = Act(t: Attempt, e: Event)

  ghost predicate Run(ss: seq<State>, acts: seq<Act>) {
    && |ss| == |acts| + 1
    && Init(ss[0])
    && forall i :: 0 <= i < |acts| ==> Step(ss[i], acts[i].t, acts[i].e, ss[i + 1])
  }

  /** Attempts that were let in and have not given the device back. */
  function Inside(at: map<Attempt, Stage>): set<Attempt> {
    set t | t in at && !at[t].BackingOff?
  }

  function Bouncing(at: map<Attempt, Stage>): set<Attempt> {
    set t | t in at && at[t].BackingOff?
  }

  ghost predicate Inv(s: State) {
    && s.available == 1 - |s.at|
    && forall t, u :: t in Inside(s.at) && u in Inside(s.at) ==> t == u
  }

  lemma Sizes(at: map<Attempt, Stage>)
    ensures |at| == |Inside(at)| + |Bouncing(at)|
  {
    assert at.Keys == Inside(at) + Bouncing(at) && Inside(at) !! Bouncing(at);
    assert |at| == |at.Keys|;
  }

  lemma MapSizes(at: map<Attempt, Stage>, t: Attempt, v: Stage)
    ensures |at[t := v]| == |at| + if t in at then 0 else 1
    ensures |at - {t}| == |at| - if t in at then 1 else 0
  {
    assert at[t := v].Keys == at.Keys + {t} && |at[t := v]| == |at[t := v].Keys| && |at| == |at.Keys|;
    assert (at - {t}).Keys == at.Keys - {t} && |at - {t}| == |(at - {t}).Keys|;
  }

  lemma InvStep(s: State, t: Attempt, e: Event, s': State)
    requires Inv(s) && Step(s, t, e, s')
    ensures Inv(s')
  {
    MapSizes(s.at, t, if e.Try? && Admits(s) then Opening else if e.Opened? then Holding else if e.OpenFails? then GivingUp else BackingOff);
    if e.Try? && Admits(s) {
      assert |s.at.Keys| == |s.at| == 0;
      assert s.at == map[];
    } else {
      assert Inside(s'.at) <= Inside(s.at);
    }
  }

  lemma {:induction false} RunInv(ss: seq<State>, acts: seq<Act>, i: nat)
    requires Run(ss, acts) && i < |ss|
    ensures Inv(ss[i])
  {
    if i > 0 {
      RunInv(ss, acts, i - 1);
      InvStep(ss[i - 1], acts[i - 1].t, acts[i - 1].e, ss[i]);
    }
  }

  lemma AtMostOne(s: State)
    requires Inv(s)
    ensures |Inside(s.at)| <= 1
  {
    var inside := Inside(s.at);
    if inside != {} {
      var t :| t in inside;
      assert inside == {t};
    }
  }

  /** The counter always says how many are inside and how many are on their way back;
      never is more than one inside. */
  lemma OneHolder(ss: seq<State>, acts: seq<Act>, i: nat)
    requires Run(ss, acts) && i < |ss|
    ensures ss[i].available == 1 - |Inside(ss[i].at)| - |Bouncing(ss[i].at)|
    ensures |Inside(ss[i].at)| <= 1
  {
    RunInv(ss, acts, i);
    Sizes(ss[i].at);
    AtMostOne(ss[i]);
  }

  /** An opener gets in exactly when nobody is inside and nobody is still backing off. */
  lemma WhoGetsIn(ss: seq<State>, acts: seq<Act>, i: nat)
    requires Run(ss, acts) && i < |acts| && acts[i].e.Try?
    ensures acts[i].t in ss[i + 1].at
    ensures ss[i + 1].at[acts[i].t].Opening? <==> Inside(ss[i].at) == {} && Bouncing(ss[i].at) == {}
  {
    RunInv(ss, acts, i);
    assert Step(ss[i], acts[i].t, acts[i].e, ss[i + 1]);
    Sizes(ss[i].at);
  }

  /** So an opener may be turned away from a device that nobody has: another opener
      that was turned away has not yet put its decrement back. */
  lemma RefusedWithoutHolder() returns (ss: seq<State>, acts: seq<Act>)
    ensures Run(ss, acts) && |acts| == 5
    ensures acts[4].e.Try? && Inside(ss[4].at) == {} && acts[4].t in ss[5].at && ss[5].at[acts[4].t].BackingOff?
  {
    var s0 := State(1, map[]);
    var s1 := State(0, map[0 := Opening]);
    var s2 := State(0, map[0 := Holding]);
    var s3 := State(-1, map[0 := Holding, 1 := BackingOff]);
    var s4 := State(0, map[1 := BackingOff]);
    var s5 := State(-1, map[1 := BackingOff, 2 := BackingOff]);
    ss := [s0, s1, s2, s3, s4, s5];
    acts := [Act(0, Try), Act(0, Opened), Act(1, Try), Act(0, Close), Act(2, Try)];
    assert s4.at == s3.at - {0};
  }
}
