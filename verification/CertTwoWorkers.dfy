/** Two RunRotation workers on one manager: the one-slot channel loses a wake-up
    (pkg/ratls/rotation.go:52-57, 76-85).  The documented rule of one worker per manager
    is exactly what stopRotation needs. */
module CertTwoWorkers {
  import opened Wrappers
  import opened CertState
  import opened CertMachine
  import opened CertRotation

  const PLAIN := Choice(Refused, false, 0)
  const DONE := Choice(Refused, true, 0)

  function DueCert(c: Config): Cert {
    Cert(0, c.provider, Some(Leaf(0, SECOND)), None)
  }

  /** A certificate that is due at once. */
  lemma CertDue(c: Config) returns (p: seq<Step>)
    ensures var s := Exec(c, p);
            && s.threads == map[] && s.nextThread == 1 && s.now == 0 && s.holder.None? && s.workers == {}
            && s.sh == Fresh(c.provider).(cert := Some(DueCert(c)), revision := 1)
  {
    p := [];
    p := Extend(c, p, SwapProvider(c.provider));
    p := Extend(c, p, Act(0, Choice(Answered(Some(DueCert(c)), 1), false, 0)));
    assert Exec(c, p).threads == map[0 := Checked(SwapRun, c.provider, 0, DueCert(c), 0, 1)];
    p := Extend(c, p, Act(0, PLAIN));
    assert Exec(c, p).threads == map[0 := Installing(SwapRun, c.provider, 0, DueCert(c), 0, 0, Renewal(0, 1))];
    p := Extend(c, p, Act(0, PLAIN));
    p := Extend(c, p, Act(0, PLAIN));
  }

  /** A handshake starts its renewal. */
  lemma RenewalRunning(c: Config) returns (p: seq<Step>)
    ensures var s := Exec(c, p);
            && s.threads == map[2 := Provisioning(RotationRun(false), c.provider, 1)] && s.nextThread == 3
            && s.sh.rotating && !s.sh.channel && !s.sh.token && s.holder.None? && s.workers == {}
  {
    p := CertDue(c);
    p := Extend(c, p, Handshake);
    p := Extend(c, p, Act(1, PLAIN));
    p := Extend(c, p, Act(1, PLAIN));
    assert Exec(c, p).threads == map[1 := Requesting(0, DueCert(c), c.provider, 1)];
    p := Extend(c, p, Act(1, PLAIN));
  }

  lemma Extend(c: Config, p: seq<Step>, step: Step) returns (p': seq<Step>)
    ensures p' == p + [step] && Exec(c, p') == Apply(c, Exec(c, p), step)
  {
    ExecAppend(c, p, step);
    p' := p + [step];
  }

  lemma EndStep(c: Config, p: seq<Step>, t: nat, choice: Choice) returns (p': seq<Step>)
    requires CanMove(Exec(c, p), t) && InEnd(Exec(c, p).threads[t])
    ensures Exec(c, p') == EndMove(Exec(c, p), t, Exec(c, p).threads[t], choice)
  {
    p' := Extend(c, p, Act(t, choice));
  }

  lemma WorkerStep(c: Config, p: seq<Step>, t: nat, choice: Choice) returns (p': seq<Step>)
    requires CanMove(Exec(c, p), t) && IsWorker(Exec(c, p).threads[t])
    requires !InRun(Exec(c, p).threads[t]) && !InEnd(Exec(c, p).threads[t])
    ensures Exec(c, p') == WorkerMove(Exec(c, p), t, Exec(c, p).threads[t], choice)
  {
    p' := Extend(c, p, Act(t, choice));
  }

  /** A worker that is told to stop while a rotation runs sees the flag and waits. */
  lemma WorkerWaits(c: Config, p0: seq<Step>, w: nat) returns (p: seq<Step>)
    requires var s := Exec(c, p0);
             w in s.threads && s.threads[w].WorkerStarting? && s.sh.rotating && s.holder.None?
    ensures var s, s' := Exec(c, p0), Exec(c, p);
            && s'.threads == s.threads[w := WorkerReceiving] && s'.sh.channel && s'.workers == s.workers
            && s'.sh.rotating && s'.sh.token == s.sh.token && s'.holder.None?
  {
    p := WorkerStep(c, p0, w, PLAIN);
    p := WorkerStep(c, p, w, DONE);
    assert Exec(c, p).threads[w] == WorkerStopping;
    p := WorkerStep(c, p, w, PLAIN);
    p := WorkerStep(c, p, w, PLAIN);
  }

  /** The renewal fails and sends its one message. */
  lemma RenewalEnds(c: Config, p0: seq<Step>, t: nat) returns (p: seq<Step>)
    requires var s := Exec(c, p0);
             t in s.threads && s.threads[t].Provisioning? && s.threads[t].run == RotationRun(false) && s.holder.None?
    ensures var s, s' := Exec(c, p0), Exec(c, p);
            s'.threads == s.threads - {t} && !s'.sh.rotating && s'.holder.None? && (s.sh.channel ==> s'.sh.token)
  {
    p := Extend(c, p0, Act(t, PLAIN));
    assert Exec(c, p) == Go(Exec(c, p0), t, Retrying(false, Exec(c, p0).threads[t].revision));
    p := RetryEnds(c, p, t);
  }

  lemma RetryEnds(c: Config, p0: seq<Step>, t: nat) returns (p: seq<Step>)
    requires var s := Exec(c, p0); t in s.threads && s.threads[t].Retrying? && !s.threads[t].worker && s.holder.None?
    ensures var s, s' := Exec(c, p0), Exec(c, p);
            s'.threads == s.threads - {t} && !s'.sh.rotating && s'.holder.None? && (s.sh.channel ==> s'.sh.token)
  {
    p := EndStep(c, p0, t, PLAIN);
    p := EndStep(c, p, t, PLAIN);
    p := EndStep(c, p, t, PLAIN);
  }

  lemma BothWaiting(c: Config) returns (p: seq<Step>)
    requires c.maxWorkers >= 2
    ensures var s := Exec(c, p);
            && s.threads == map[2 := Provisioning(RotationRun(false), c.provider, 1), 3 := WorkerReceiving,
               4 := WorkerReceiving]
            && s.sh.channel && s.holder.None?
  {
    p := RenewalRunning(c);
    p := Extend(c, p, RunRotation);
    p := Extend(c, p, RunRotation);
    assert Exec(c, p).threads[3] == Exec(c, p).threads[4] == WorkerStarting;
    p := WorkerWaits(c, p, 3);
    p := WorkerWaits(c, p, 4);
  }

  /** Two workers wait, the rotation ends, the first worker takes the message and leaves. */
  lemma SecondStuck(c: Config) returns (p: seq<Step>)
    requires c.maxWorkers >= 2
    ensures var s := Exec(c, p); s.threads == map[4 := WorkerReceiving] && !s.sh.token
  {
    p := BothWaiting(c);
    p := RenewalEnds(c, p, 2);
    assert Exec(c, p).threads == map[3 := WorkerReceiving, 4 := WorkerReceiving];
    p := WorkerStep(c, p, 3, PLAIN);
    p := WorkerStep(c, p, 3, PLAIN);
  }

  /** stopRotation is safe from lost wake-ups exactly when at most one worker runs at a time. */
  lemma NoLostWakeupIffOneWorker(c: Config)
    ensures (forall steps: seq<Step> :: NoLostWakeup(Exec(c, steps))) <==> c.maxWorkers <= 1
  {
    if c.maxWorkers <= 1 {
      forall steps: seq<Step> ensures NoLostWakeup(Exec(c, steps)) {
        OneWorkerNeverStuck(c, steps);
      }
    } else {
      var p := SecondStuck(c);
      assert 4 in Exec(c, p).threads && Exec(c, p).threads[4].WorkerReceiving?;
      assert !NoLostWakeup(Exec(c, p));
    }
  }
}
