/**
 Machines that consume a byte stream step by step, each step on the bytes at hand, and may stop to
 wait for more. What holds of their runs when the stream arrives in pieces does not depend on
 what the steps do, only on a step that goes on not looking past its chunk.
 */
module Stream {
  import opened Decimal
  import opened Seals

  /** One step: the new state, whether to go on, the bytes used, and whether the input is refused. */
  datatype Result<P> = Result(p: P, go: bool, used: nat, bad: bool)

  /** How a run ends: waiting for more, on refused input, or past the end of the chunk. */
  datatype Ending = Waiting | Refused | Overrun

  datatype Outcome<P> = Outcome(p: P, used: nat, ending: Ending)

  datatype Machine<!P> = Machine(step: (P, Bytes) -> Result<P>, ok: P -> bool, weight: P -> nat)

  /** Steps stay within the good states, stop inside the chunk, and make progress when they go on. */
  ghost predicate Sound<P(!new)>(m: Machine<P>) {
    forall p, s {:trigger m.step(p, s)} :: m.ok(p) ==>
      var r := m.step(p, s);
      && m.ok(r.p)
      && (!r.go ==> r.used <= |s|)
      && (r.bad ==> !r.go)
      && (r.go && r.used == 0 ==> m.weight(r.p) < m.weight(p))
  }

  /** A step that goes on is the same step when more bytes follow. */
  ghost predicate Stable<P(!new)>(m: Machine<P>) {
    forall p, s, t {:trigger m.step(p, s + t)} :: m.ok(p) && m.step(p, s).go ==> m.step(p, s + t) == m.step(p, s)
  }

  function Shift<P>(o: Outcome<P>, n: nat): Outcome<P> { o.(used := n + o.used) }

  function End<P>(r: Result<P>): Outcome<P> {
    Outcome(r.p, r.used, if r.bad then Refused else if r.go then Overrun else Waiting)
  }

  predicate Continues<P>(r: Result<P>, s: Bytes) { r.go && r.used <= |s| }

  /** The run of the machine over the chunk `s`. */
  function Run<P(!new)>(m: Machine<P>, p: P, s: Bytes): (o: Outcome<P>)
    requires Sound(m) && m.ok(p)
    ensures m.ok(o.p) && (o.ending == Waiting ==> o.used <= |s|)
    decreases |s|, m.weight(p)
  {
    var r := m.step(p, s);
    if Continues(r, s) then Shift(Run(m, r.p, s[r.used..]), r.used) else End(r)
  }

  /** The state in which the run makes its last step, and the bytes it then has. */
  datatype Halted<P> = Halted(q: P, rest: Bytes)

  function Halt<P(!new)>(m: Machine<P>, p: P, s: Bytes): (h: Halted<P>)
    requires Sound(m) && m.ok(p)
    ensures m.ok(h.q) && |h.rest| <= |s| && !Continues(m.step(h.q, h.rest), h.rest)
    decreases |s|, m.weight(p)
  {
    var r := m.step(p, s);
    if Continues(r, s) then Halt(m, r.p, s[r.used..]) else Halted(p, s)
  }

  lemma {:induction false} RunGo<P(!new)>(m: Machine<P>, p: P, s: Bytes, r: Result<P>)
    requires Sound(m) && m.ok(p) && r == m.step(p, s) && Continues(r, s)
    ensures m.ok(r.p) && Run(m, p, s) == Shift(Run(m, r.p, s[r.used..]), r.used)
  {
  }

  /** A run over a longer text passes through the same resting state. */
  lemma {:induction false} RunThroughHalt<P(!new)>(m: Machine<P>, p: P, s: Bytes, t: Bytes)
    requires Sound(m) && Stable(m) && m.ok(p)
    ensures var h := Halt(m, p, s); Run(m, p, s + t) == Shift(Run(m, h.q, h.rest + t), |s| - |h.rest|)
    decreases |s|, m.weight(p)
  {
    var r := m.step(p, s);
    if Continues(r, s) {
      assert m.step(p, s + t) == r;
      RunGo(m, p, s + t, r);
      assert (s + t)[r.used..] == s[r.used..] + t;
      RunThroughHalt(m, r.p, s[r.used..], t);
    }
  }

  lemma {:induction false} HaltIsSuffix<P(!new)>(m: Machine<P>, p: P, s: Bytes)
    requires Sound(m) && m.ok(p)
    ensures var h := Halt(m, p, s); h.rest == s[|s| - |h.rest|..]
    decreases |s|, m.weight(p)
  {
    var r := m.step(p, s);
    if Continues(r, s) {
      HaltIsSuffix(m, r.p, s[r.used..]);
    }
  }

  /** The run itself is its part up to the resting state and the last step. */
  lemma {:induction false} RunIsHaltAndStep<P(!new)>(m: Machine<P>, p: P, s: Bytes)
    requires Sound(m) && m.ok(p)
    ensures var h := Halt(m, p, s); Run(m, p, s) == Shift(End(m.step(h.q, h.rest)), |s| - |h.rest|)
    ensures var h := Halt(m, p, s); h.rest == s[|s| - |h.rest|..]
    decreases |s|, m.weight(p)
  {
    HaltIsSuffix(m, p, s);
    var r := m.step(p, s);
    if Continues(r, s) {
      RunGo(m, p, s, r);
      RunIsHaltAndStep(m, r.p, s[r.used..]);
    }
  }

  /** The run over `s`, then the run over what it left followed by `t`. */
  function Resumed<P(!new)>(m: Machine<P>, p: P, s: Bytes, t: Bytes): (o: Outcome<P>)
    requires Sound(m) && m.ok(p) && Run(m, p, s).ending == Waiting
  {
    var o := Run(m, p, s);
    Shift(Run(m, o.p, s[o.used..] + t), o.used)
  }

  lemma {:induction false} ResumedFromHalt<P(!new)>(m: Machine<P>, p: P, s: Bytes, t: Bytes)
    requires Sound(m) && m.ok(p) && Run(m, p, s).ending == Waiting
    ensures var h := Halt(m, p, s);
      Run(m, h.q, h.rest).ending == Waiting && Resumed(m, p, s, t) == Shift(Resumed(m, h.q, h.rest, t), |s| - |h.rest|)
  {
    var h := Halt(m, p, s);
    var n, r := |s| - |h.rest|, m.step(h.q, h.rest);
    RunIsHaltAndStep(m, p, s);
    RunAtRest(m, h.q, h.rest);
    DropDrop(s, n, r.used);
  }

  lemma {:induction false} RunAtRest<P(!new)>(m: Machine<P>, q: P, rest: Bytes)
    requires Sound(m) && m.ok(q) && !Continues(m.step(q, rest), rest)
    ensures Run(m, q, rest) == End(m.step(q, rest))
  {
  }

  lemma {:induction false} DropDrop(s: Bytes, i: nat, j: nat)
    requires i + j <= |s|
    ensures s[i..][j..] == s[i + j..]
  {
  }

  /** Resuming agrees with one run exactly when it does from the resting state. */
  lemma {:induction false} ResumesIffAtHalt<P(!new)>(m: Machine<P>, p: P, s: Bytes, t: Bytes)
    requires Sound(m) && Stable(m) && m.ok(p) && Run(m, p, s).ending == Waiting
    ensures var h := Halt(m, p, s);
      && Run(m, h.q, h.rest).ending == Waiting
      && (Run(m, p, s + t) == Resumed(m, p, s, t) <==> Run(m, h.q, h.rest + t) == Resumed(m, h.q, h.rest, t))
  {
    RunThroughHalt(m, p, s, t);
    ResumedFromHalt(m, p, s, t);
  }

  /** A stop that changed nothing is resumed by the same step. */
  lemma {:induction false} UnchangedResumes<P(!new)>(m: Machine<P>, q: P, rest: Bytes, t: Bytes)
    requires Sound(m) && m.ok(q) && m.step(q, rest) == Result(q, false, 0, false)
    ensures Run(m, q, rest + t) == Resumed(m, q, rest, t)
  {
    assert rest[0..] == rest;
  }

  /** Two states whose next steps agree, one of them having consumed `n` bytes before, run alike. */
  lemma {:induction false} SameStepSameRun<P(!new)>(m: Machine<P>, p: P, s: Bytes, p': P, n: nat)
    requires Sound(m) && m.ok(p) && m.ok(p') && n <= |s|
    requires var r := m.step(p', s[n..]); m.step(p, s) == r.(used := n + r.used)
    ensures Run(m, p, s) == Shift(Run(m, p', s[n..]), n)
  {
    var r := m.step(p', s[n..]);
    if Continues(r, s[n..]) {
      RunGo(m, p, s, r.(used := n + r.used));
      assert s[n..][r.used..] == s[n + r.used..];
    }
  }

  /** A stop after `n` bytes is resumed when the next steps agree. */
  lemma {:induction false} StoppedResumes<P(!new)>(m: Machine<P>, q: P, rest: Bytes, t: Bytes, q': P, n: nat)
    requires Sound(m) && m.ok(q) && m.step(q, rest) == Result(q', false, n, false)
    requires var r := m.step(q', (rest + t)[n..]); m.step(q, rest + t) == r.(used := n + r.used)
    ensures Run(m, q, rest + t) == Resumed(m, q, rest, t)
  {
    assert n <= |rest| && m.ok(q');
    assert (rest + t)[n..] == rest[n..] + t;
    SameStepSameRun(m, q, rest + t, q', n);
  }

  // ------------------------------------------------------------- consuming a known text

  /** Whatever follows, reading exactly `u` takes the machine from `p` to `p'`. */
  ghost predicate Leads<P(!new)>(m: Machine<P>, p: P, u: Bytes, p': P)
    requires Sound(m)
  {
    m.ok(p) && m.ok(p') && forall t: Bytes {:trigger Opened(t)} :: Opened(t) ==> Halt(m, p, u + t) == Halt(m, p', t)
  }

  lemma {:induction false} LeadsByStep<P(!new)>(m: Machine<P>, p: P, u: Bytes, p': P)
    requires Sound(m) && Stable(m) && m.ok(p) && m.step(p, u) == Result(p', true, |u|, false)
    ensures Leads(m, p, u, p')
  {
    var r := m.step(p, u);
    forall t ensures Halt(m, p, u + t) == Halt(m, p', t) {
      assert m.step(p, u + t) == r;
      assert (u + t)[|u|..] == t;
    }
  }

  lemma {:induction false} LeadsThen<P(!new)>(m: Machine<P>, p: P, u: Bytes, p': P, v: Bytes, p'': P)
    requires Sound(m) && Leads(m, p, u, p') && Leads(m, p', v, p'')
    ensures Leads(m, p, u + v, p'')
  {
    forall t ensures Halt(m, p, (u + v) + t) == Halt(m, p'', t) {
      assert (u + v) + t == u + (v + t);
      LeadsHalt(m, p, u, p', v + t);
      LeadsHalt(m, p', v, p'', t);
    }
  }

  lemma {:induction false} LeadsHalt<P(!new)>(m: Machine<P>, p: P, u: Bytes, p': P, t: Bytes)
    requires Sound(m) && Leads(m, p, u, p')
    ensures Halt(m, p, u + t) == Halt(m, p', t)
  {
    assert Opened(t);
  }

  lemma {:induction false} LeadsRun<P(!new)>(m: Machine<P>, p: P, u: Bytes, p': P, t: Bytes)
    requires Sound(m) && Leads(m, p, u, p')
    ensures Run(m, p, u + t) == Shift(Run(m, p', t), |u|)
  {
    LeadsHalt(m, p, u, p', t);
    RunIsHaltAndStep(m, p, u + t);
    RunIsHaltAndStep(m, p', t);
  }

  // ---------------------------------------------------------------- feeding chunks

  /** The state between two reads: the machine and the bytes it has not consumed. */
  datatype Feed<P> = Feed(p: P, left: Bytes, ending: Ending)

  /** One read: the new bytes are appended to what was left and the machine runs. */
  function Read<P(!new)>(m: Machine<P>, f: Feed<P>, chunk: Bytes): (f': Feed<P>)
    requires Sound(m) && m.ok(f.p)
    ensures m.ok(f'.p)
  {
    if f.ending != Waiting then f
    else
      var o := Run(m, f.p, f.left + chunk);
      Feed(o.p, if o.ending == Waiting then (f.left + chunk)[o.used..] else [], o.ending)
  }

  function ReadAll<P(!new)>(m: Machine<P>, f: Feed<P>, chunks: seq<Bytes>): (f': Feed<P>)
    requires Sound(m) && m.ok(f.p)
    ensures m.ok(f'.p)
  {
    if chunks == [] then f
    else Read(m, ReadAll(m, f, chunks[..|chunks| - 1]), chunks[|chunks| - 1])
  }

  function Concat(chunks: seq<Bytes>): Bytes {
    if chunks == [] then [] else Concat(chunks[..|chunks| - 1]) + chunks[|chunks| - 1]
  }

  lemma {:induction false} OneMoreChunk<P(!new)>(m: Machine<P>, f: Feed<P>, chunks: seq<Bytes>, c: Bytes)
    requires Sound(m) && m.ok(f.p)
    ensures ReadAll(m, f, chunks + [c]) == Read(m, ReadAll(m, f, chunks), c)
    ensures Concat(chunks + [c]) == Concat(chunks) + c
  {
    assert (chunks + [c])[..|chunks|] == chunks;
  }

  /** The first chunks, taken as one text, can be cut off here whatever follows. */
  ghost predicate GoodCut<P(!new)>(m: Machine<P>, p: P, s: Bytes)
    requires Sound(m) && m.ok(p)
  {
    Run(m, p, s).ending == Waiting && forall t :: Run(m, p, s + t) == Resumed(m, p, s, t)
  }

  /** Whether a cut is good is decided at the resting state. */
  lemma {:induction false} GoodCutIffAtHalt<P(!new)>(m: Machine<P>, p: P, s: Bytes)
    requires Sound(m) && Stable(m) && m.ok(p) && Run(m, p, s).ending == Waiting
    ensures var h := Halt(m, p, s);
      && Run(m, h.q, h.rest).ending == Waiting && !m.step(h.q, h.rest).go
      && (GoodCut(m, p, s) <==> GoodCut(m, h.q, h.rest))
  {
    var h := Halt(m, p, s);
    RunIsHaltAndStep(m, p, s);
    ResumesIffAtHalt(m, p, s, []);
    forall t
      ensures Run(m, p, s + t) == Resumed(m, p, s, t) <==> Run(m, h.q, h.rest + t) == Resumed(m, h.q, h.rest, t)
    {
      ResumesIffAtHalt(m, p, s, t);
    }
  }

  lemma {:induction false} DropTwice(s: Bytes, t: Bytes, i: nat, j: nat)
    requires i <= |s| && j <= |s| - i + |t|
    ensures (s + t)[i + j..] == (s[i..] + t)[j..]
  {
  }

  lemma {:induction false} ReadTwice<P(!new)>(m: Machine<P>, p: P, s: Bytes, t: Bytes)
    requires Sound(m) && m.ok(p) && GoodCut(m, p, s)
    ensures var f := Feed(p, [], Waiting); Read(m, Read(m, f, s), t) == Read(m, f, s + t)
  {
    assert [] + s == s && [] + (s + t) == s + t;
    var o := Run(m, p, s);
    var o' := Run(m, o.p, s[o.used..] + t);
    assert Run(m, p, s + t) == Resumed(m, p, s, t) == Shift(o', o.used);
    if o'.ending == Waiting {
      DropTwice(s, t, o.used, o'.used);
    }
  }

  /** Chunks that are cut at good places are read as the whole text is. */
  lemma {:induction false} ChunksReadAsWhole<P(!new)>(m: Machine<P>, p: P, chunks: seq<Bytes>)
    requires Sound(m) && m.ok(p) && chunks != []
    requires forall k :: 0 < k < |chunks| ==> GoodCut(m, p, Concat(chunks[..k]))
    ensures ReadAll(m, Feed(p, [], Waiting), chunks) == Read(m, Feed(p, [], Waiting), Concat(chunks))
  {
    var n := |chunks| - 1;
    if n == 0 {
      assert Concat(chunks) == Concat([]) + chunks[0] == chunks[0];
    } else {
      forall k | 0 < k < n ensures GoodCut(m, p, Concat(chunks[..n][..k])) {
        assert chunks[..n][..k] == chunks[..k];
      }
      ChunksReadAsWhole(m, p, chunks[..n]);
      ReadTwice(m, p, Concat(chunks[..n]), chunks[n]);
    }
  }
}
