/** Sequential validation and the machine of many threads give the same verdicts. */
module Agreement {
  import opened Graphs
  import opened Sequences
  import opened Fates
  import opened Resolution
  import Containers
  import Concurrency

  /** What the machine needs to know of registered factories. */
  function ConfigOf(f: Factories): Concurrency.Config {
    Concurrency.Config(ReadsOf(f), Panicking(f))
  }

  /**
   * What validation reports is what any schedule will find: let it walk over a wired container and
   * fail for the keys in `failed`. Then in every run of threads over a fresh container with the same
   * registrations, once no thread can step, every lookup has an answer, and it panicked exactly if
   * its key is in `failed` or not registered.
   */
  lemma ValidationForetells(container: Containers.Container, before: Cells, failed: seq<Id>,
                            run: seq<Concurrency.State>, who: seq<nat>, t: nat, i: nat)
    requires container.Honest() && Acyclic(container.dependencies)
    requires Wired(container.factories, before) && container.AllTried(before, failed)
    requires Concurrency.IsFullRun(ConfigOf(container.factories), run, who)
    requires t < |run[0].threads| && i < |run[0].threads[t].goals|
    ensures |Last(run).threads| == |run[0].threads|
    ensures var k, answers := run[0].threads[t].goals[i], Last(run).threads[t].answers;
            && |answers| == |run[0].threads[t].goals| && answers[i].0 == k
            && (answers[i].1 == Concurrency.Panicked <==> k in failed || k !in container.factories)
  {
    var f, c := container.factories, ConfigOf(container.factories);
    var k := run[0].threads[t].goals[i];
    Concurrency.FullRunAnswers(c, run, who, t);
    forall l ensures Answerable(c.lists, c.panics, l) {
      AcyclicIsAnswerable(c.lists, c.panics, l);
    }
    DoomedIsHopeless(f, before, k);
    HopelessUnfold(ReadsOf(f), Panicking(f), k);
  }
}
