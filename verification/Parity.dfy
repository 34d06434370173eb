// Replay against production: the same samples, the same answers, as long as normalising
// labels keeps the series apart.
module Parity {
  import opened Workload
  import opened Baseline
  import opened Detector

  ghost predicate InjectiveOn(f: Keying, u: set<Labels>) {
    forall l, l' :: l in u && l' in u && f(l) == f(l') ==> l == l'
  }

  // Production, keyed through f, holds for every series of u what the replay holds.
  ghost predicate Mirrors(f: Keying, u: set<Labels>, prod: Baselines, replay: Baselines) {
    forall metric, l :: l in u ==> Lookup(prod, Key(metric, f(l))) == Lookup(replay, Key(metric, l))
  }

  lemma MirrorStep(cfg: Config, f: Keying, u: set<Labels>, prod: Baselines, replay: Baselines,
                   metric: string, l: Labels, value: real)
    requires InjectiveOn(f, u) && Mirrors(f, u, prod, replay) && l in u
    ensures Answer(cfg, prod, Key(metric, f(l)), value, NoFault) == Answer(cfg, replay, Key(metric, l), value, NoFault)
    ensures Mirrors(f, u, After(cfg, prod, Key(metric, f(l)), value, NoFault),
                    After(cfg, replay, Key(metric, l), value, NoFault))
  {
    var prod' := After(cfg, prod, Key(metric, f(l)), value, NoFault);
    var replay' := After(cfg, replay, Key(metric, l), value, NoFault);
    forall metric', l' | l' in u
      ensures Lookup(prod', Key(metric', f(l'))) == Lookup(replay', Key(metric', l'))
    {
      if metric' == metric && f(l') == f(l) {
        assert l' == l;
      }
    }
  }

  // ----- whole streams -----

  datatype Event = Event(metric: string, labels: Labels, value: real)

  function Held(cfg: Config, f: Keying, events: seq<Event>): Baselines {
    if events == [] then map[]
    else
      var n := |events| - 1;
      After(cfg, Held(cfg, f, events[..n]), Key(events[n].metric, f(events[n].labels)), events[n].value, NoFault)
  }

  function Answers(cfg: Config, f: Keying, events: seq<Event>): seq<Option<Result>> {
    if events == [] then []
    else
      var n := |events| - 1;
      Answers(cfg, f, events[..n]) +
      [Answer(cfg, Held(cfg, f, events[..n]), Key(events[n].metric, f(events[n].labels)), events[n].value, NoFault)]
  }

  ghost predicate Over(u: set<Labels>, events: seq<Event>) {
    forall i :: 0 <= i < |events| ==> events[i].labels in u
  }

  lemma {:induction false} Simulation(cfg: Config, f: Keying, u: set<Labels>, events: seq<Event>)
    requires InjectiveOn(f, u) && Over(u, events)
    ensures Mirrors(f, u, Held(cfg, f, events), Held(cfg, ReplayKeying(), events))
    ensures Answers(cfg, f, events) == Answers(cfg, ReplayKeying(), events)
  {
    if events != [] {
      var n := |events| - 1;
      Simulation(cfg, f, u, events[..n]);
      MirrorStep(cfg, f, u, Held(cfg, f, events[..n]), Held(cfg, ReplayKeying(), events[..n]),
                 events[n].metric, events[n].labels, events[n].value);
    }
  }

  lemma FirstAnswer(cfg: Config, f: Keying, e: Event)
    ensures Held(cfg, f, [e]) == map[Key(e.metric, f(e.labels)) := Stats(e.value, 0.0, e.value, 1)]
    ensures Answers(cfg, f, [e]) == [Some(Result(false, 0.0, e.value, e.value, 0.0, e.value, true))]
  {
    assert [e][..0] == [];
    assert Held(cfg, f, []) == map[];
    assert Answers(cfg, f, []) == [];
    assert Lookup(map[], Key(e.metric, f(e.labels))) == FRESH;
  }

  // Two series that production merges and the replay does not: a zero in one and a one in
  // the other are answered differently.
  lemma MergedSeriesDiffer(cfg: Config, f: Keying, l: Labels, l': Labels, metric: string)
    requires l != l' && f(l) == f(l')
    ensures var events := [Event(metric, l, 0.0), Event(metric, l', 1.0)];
            Answers(cfg, f, events) != Answers(cfg, ReplayKeying(), events)
  {
    var e, e' := Event(metric, l, 0.0), Event(metric, l', 1.0);
    var events := [e, e'];
    assert events[..1] == [e];
    FirstAnswer(cfg, f, e);
    FirstAnswer(cfg, ReplayKeying(), e);
    var merged := Stats(0.0, 0.0, 0.0, 1);
    assert Lookup(Held(cfg, f, [e]), Key(metric, f(l'))) == merged;
    assert Lookup(Held(cfg, ReplayKeying(), [e]), Key(metric, l')) == FRESH;
    assert Answers(cfg, f, events)[1] == Some(Verdict(cfg, merged, 1.0));
    assert Answers(cfg, ReplayKeying(), events)[1] == Some(Verdict(cfg, FRESH, 1.0));
    if WarmingUp(cfg, merged) {
      assert Verdict(cfg, merged, 1.0).mean == 0.5;
    }
  }

  // The replay answers every stream over the label sets in u as production does exactly
  // when normalising keeps them apart.
  lemma ParityIff(cfg: Config, u: set<Labels>)
    ensures (forall events :: Over(u, events) ==>
               Answers(cfg, ProductionKeying(cfg), events) == Answers(cfg, ReplayKeying(), events))
            <==> InjectiveOn(ProductionKeying(cfg), u)
  {
    var f := ProductionKeying(cfg);
    if InjectiveOn(f, u) {
      forall events | Over(u, events)
        ensures Answers(cfg, f, events) == Answers(cfg, ReplayKeying(), events)
      {
        Simulation(cfg, f, u, events);
      }
    } else {
      var l, l' :| l in u && l' in u && f(l) == f(l') && l != l';
      MergedSeriesDiffer(cfg, f, l, l', "m");
      assert Over(u, [Event("m", l, 0.0), Event("m", l', 1.0)]);
    }
  }

  // In particular two replicas of one Deployment are enough to tell them apart.
  lemma ReplicasBreakParity(cfg: Config, labels: Labels, w: string, h: string, x: string, h': string, x': string)
    requires IsName(w) && IsHash(h) && IsHash(h') && IsSuffix(x) && IsSuffix(x')
    requires DeploymentPod(w, h, x) != DeploymentPod(w, h', x')
    ensures exists events ::
              && Over({labels["pod" := DeploymentPod(w, h, x)], labels["pod" := DeploymentPod(w, h', x')]}, events)
              && Answers(cfg, ProductionKeying(cfg), events) != Answers(cfg, ReplayKeying(), events)
  {
    var l, l' := labels["pod" := DeploymentPod(w, h, x)], labels["pod" := DeploymentPod(w, h', x')];
    assert l["pod"] != l'["pod"];
    ReplicasShareBaseline(cfg, "m", labels, w, h, x, h', x');
    MergedSeriesDiffer(cfg, ProductionKeying(cfg), l, l', "m");
    assert Over({l, l'}, [Event("m", l, 0.0), Event("m", l', 1.0)]);
  }

  // ----- batches -----

  ghost predicate SamplesOver(u: set<Labels>, samples: seq<Sample>) {
    forall i :: 0 <= i < |samples| ==> samples[i].labels in u
  }

  lemma {:induction false} DetectParity(cfg: Config, f: Keying, u: set<Labels>, prod: Baselines, replay: Baselines,
                                        metric: string, samples: seq<Sample>)
    requires InjectiveOn(f, u) && Mirrors(f, u, prod, replay) && SamplesOver(u, samples)
    ensures var p := Detect(cfg, f, prod, metric, samples, Faultless());
            var r := Detect(cfg, ReplayKeying(), replay, metric, samples, Faultless());
            p.anomalies == r.anomalies && p.tested == r.tested && Mirrors(f, u, p.baselines, r.baselines)
  {
    if samples != [] {
      var n := |samples| - 1;
      DetectParity(cfg, f, u, prod, replay, metric, samples[..n]);
      MirrorStep(cfg, f, u,
                 Detect(cfg, f, prod, metric, samples[..n], Faultless()).baselines,
                 Detect(cfg, ReplayKeying(), replay, metric, samples[..n], Faultless()).baselines,
                 metric, samples[n].labels, samples[n].value);
    }
  }
}
