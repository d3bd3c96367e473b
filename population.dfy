/** The population the genetic algorithm evolves: an array of chromosomes kept
    sorted by fitness, replaced by a freshly built generation on every Evolve.
    Every random draw and every coin (`NextDouble() <= ratio`) is a parameter. */
module Populations {
  import opened Chromosomes

  /** The number of challengers each tournament draws after its first candidate. */
  const TournamentSize := 3

  /** The draws of one tournament: the first candidate's index and the
      challengers' indices, each a `rnd.Next(size)`. */
  datatype Tournament = Tournament(first: nat, rounds: seq<nat>)

  /** The draws of one iteration of the fill loop. The crossover coin selects
      the constructor; `mutate`, `mutate0` and `mutate1` are the mutation coins. */
  datatype Step =
    | Copy(mutate: bool, mutation: MutationDraw)
    | Cross(left: Tournament, right: Tournament, pivot: nat,
            mutate0: bool, mutation0: MutationDraw, mutate1: bool, mutation1: MutationDraw)

  predicate FullLength(c: Chromosome)
  {
    |c.gene| == |Target|
  }

  predicate AllFullLength(s: seq<Chromosome>)
  {
    forall i :: 0 <= i < |s| ==> FullLength(s[i])
  }

  /** What every member of a population is: a consistent chromosome of the target's length. */
  predicate Member(c: Chromosome)
  {
    Consistent(c) && FullLength(c)
  }

  predicate AllMembers(s: seq<Chromosome>)
  {
    forall i :: 0 <= i < |s| ==> Member(s[i])
  }

  /** Ascending by fitness, best first. */
  predicate SortedByFitness(s: seq<Chromosome>)
  {
    forall i, j :: 0 <= i < j < |s| ==> s[i].fitness <= s[j].fitness
  }

  predicate ValidTournament(t: Tournament, size: nat)
  {
    t.first < size && |t.rounds| == TournamentSize &&
    forall j :: 0 <= j < |t.rounds| ==> t.rounds[j] < size
  }

  /** A mutation draw for a member: an index into a gene of the target's length. */
  predicate ValidDraw(d: MutationDraw)
  {
    d.index < |Target| && d.raw < RandomBound
  }

  predicate ValidSteps(steps: seq<Step>, size: nat)
  {
    forall i :: 0 <= i < |steps| ==> ValidStep(steps[i], size)
  }

  predicate ValidStep(s: Step, size: nat)
  {
    match s
    case Copy(_, d) => ValidDraw(d)
    case Cross(left, right, pivot, _, d0, _, d1) =>
      ValidTournament(left, size) && ValidTournament(right, size) &&
      pivot < |Target| && ValidDraw(d0) && ValidDraw(d1)
  }

  // ---------------------------------------------------------------------
  // Tournament selection

  /** The tournament loop as a left fold: a challenger replaces the candidate
      only when it compares strictly less. */
  function Fittest(candidate: Chromosome, challengers: seq<Chromosome>): (w: Chromosome)
    ensures w == candidate || w in challengers
    ensures w.fitness <= candidate.fitness
    decreases |challengers|
  {
    if challengers == [] then candidate
    else
      var next := if CompareTo(challengers[0], candidate) < 0 then challengers[0] else candidate;
      Fittest(next, challengers[1..])
  }

  function Challengers(pop: seq<Chromosome>, t: Tournament): (s: seq<Chromosome>)
    requires ValidTournament(t, |pop|)
  {
    seq(|t.rounds|, j requires 0 <= j < |t.rounds| => pop[t.rounds[j]])
  }

  /** The chromosome one tournament over `pop` selects. */
  function TournamentWinner(pop: seq<Chromosome>, t: Tournament): (w: Chromosome)
    requires ValidTournament(t, |pop|)
    ensures w in pop
    ensures AllFullLength(pop) ==> FullLength(w)
  {
    Fittest(pop[t.first], Challengers(pop, t))
  }

  /** The fold returns the first candidate, in draw order, of least fitness. */
  lemma {:induction false} FittestIsFirstMinimum(candidate: Chromosome, challengers: seq<Chromosome>)
    ensures var w, s := Fittest(candidate, challengers), [candidate] + challengers;
      (forall j :: 0 <= j < |s| ==> w.fitness <= s[j].fitness) &&
      exists k :: 0 <= k < |s| && s[k] == w && forall j :: 0 <= j < k ==> s[j].fitness > w.fitness
    decreases |challengers|
  {
    var w, s := Fittest(candidate, challengers), [candidate] + challengers;
    if challengers == [] {
      assert s[0] == w;
    } else {
      var r := challengers[0];
      var next := if CompareTo(r, candidate) < 0 then r else candidate;
      var rest := challengers[1..];
      FittestIsFirstMinimum(next, rest);
      var s' := [next] + rest;
      assert w == Fittest(next, rest);
      var k' :| 0 <= k' < |s'| && s'[k'] == w && forall j :: 0 <= j < k' ==> s'[j].fitness > w.fitness;
      assert forall j :: 2 <= j < |s| ==> s[j] == s'[j - 1];
      var k := if k' > 0 then k' + 1 else if next == candidate then 0 else 1;
      assert s[k] == w;
      assert forall j :: 0 <= j < |s| ==> w.fitness <= s[j].fitness by {
        forall j | 0 <= j < |s| ensures w.fitness <= s[j].fitness {
          if j >= 2 {
            assert s[j] == s'[j - 1];
          }
        }
      }
    }
  }

  /** A tournament selects a member of `pop` that is no less fit than any of its
      candidates, and of the equally fit ones the earliest drawn. */
  lemma TournamentWinnerIsFirstMinimum(pop: seq<Chromosome>, t: Tournament)
    requires ValidTournament(t, |pop|)
    ensures var w, s := TournamentWinner(pop, t), [pop[t.first]] + Challengers(pop, t);
      w in pop &&
      (forall j :: 0 <= j < |s| ==> w.fitness <= s[j].fitness) &&
      exists k :: 0 <= k < |s| && s[k] == w && forall j :: 0 <= j < k ==> s[j].fitness > w.fitness
  {
    FittestIsFirstMinimum(pop[t.first], Challengers(pop, t));
  }

  // ---------------------------------------------------------------------
  // The next generation

  /** The chromosomes one iteration of the fill loop writes from slot `idx` on:
      a copy step writes the old member at that slot, possibly mutated; a
      crossover step writes the (possibly mutated) children of two tournament
      winners, or only the first child when a single slot is left. */
  function StepOutput(pop: seq<Chromosome>, idx: nat, step: Step): (out: seq<Chromosome>)
    requires AllFullLength(pop) && idx < |pop| && ValidStep(step, |pop|)
    ensures |out| == if step.Cross? && idx + 1 < |pop| then 2 else 1
    ensures AllFullLength(out)
  {
    match step
    case Copy(mutate, d) =>
      [if mutate then Mutate(pop[idx], d) else pop[idx]]
    case Cross(left, right, pivot, mutate0, d0, mutate1, d1) =>
      var children := Mate(TournamentWinner(pop, left), TournamentWinner(pop, right), pivot);
      var first := if mutate0 then Mutate(children.0, d0) else children.0;
      if idx + 1 < |pop| then
        [first, if mutate1 then Mutate(children.1, d1) else children.1]
      else
        [first]
  }

  /** The chromosomes the fill loop writes from slot `idx` on, `steps[k]` being
      the draws of the next iteration: nothing once the buffer is full. */
  function Offspring(pop: seq<Chromosome>, idx: nat, steps: seq<Step>, k: nat): (r: seq<Chromosome>)
    requires AllFullLength(pop) && idx <= |pop|
    requires k <= |steps| && |steps| - k >= |pop| - idx
    requires ValidSteps(steps, |pop|)
    ensures |r| == |pop| - idx
    ensures AllFullLength(r)
    decreases |pop| - idx, 1
  {
    if idx == |pop| then [] else Iterations(pop, idx, steps, k)
  }

  /** The chromosomes iteration `k` and the ones after it write, iteration `k`
      starting at a slot `idx` inside the buffer. */
  function Iterations(pop: seq<Chromosome>, idx: nat, steps: seq<Step>, k: nat): (r: seq<Chromosome>)
    requires AllFullLength(pop) && idx < |pop|
    requires k <= |steps| && |steps| - k >= |pop| - idx
    requires ValidSteps(steps, |pop|)
    ensures |r| == |pop| - idx
    ensures AllFullLength(r)
    decreases |pop| - idx, 0
  {
    var out := StepOutput(pop, idx, steps[k]);
    out + Offspring(pop, idx + |out|, steps, k + 1)
  }

  /** The unsorted buffer Evolve builds: the elite prefix, then the offspring. */
  function NextGeneration(pop: seq<Chromosome>, eliteCount: nat, steps: seq<Step>): (r: seq<Chromosome>)
    requires AllFullLength(pop) && eliteCount <= |pop|
    requires |steps| >= |pop| - eliteCount
    requires ValidSteps(steps, |pop|)
    ensures |r| == |pop| && AllFullLength(r)
    ensures r[..eliteCount] == pop[..eliteCount]
  {
    pop[..eliteCount] + Offspring(pop, eliteCount, steps, 0)
  }

  /** Every chromosome one iteration writes is a member. */
  lemma StepOutputMembers(pop: seq<Chromosome>, idx: nat, step: Step)
    requires AllMembers(pop) && idx < |pop| && ValidStep(step, |pop|)
    ensures AllMembers(StepOutput(pop, idx, step))
  {
    if step.Cross? {
      assert Member(TournamentWinner(pop, step.left)) && Member(TournamentWinner(pop, step.right));
    } else {
      assert Member(pop[idx]);
    }
  }

  /** Every chromosome the fill loop writes is a member: of the target's
      length, and with the fitness of its gene. */
  lemma {:induction false} OffspringMembers(pop: seq<Chromosome>, idx: nat, steps: seq<Step>, k: nat)
    requires AllMembers(pop) && idx <= |pop|
    requires k <= |steps| && |steps| - k >= |pop| - idx
    requires ValidSteps(steps, |pop|)
    ensures AllMembers(Offspring(pop, idx, steps, k))
    decreases |pop| - idx
  {
    if idx < |pop| {
      var out := StepOutput(pop, idx, steps[k]);
      StepOutputMembers(pop, idx, steps[k]);
      OffspringMembers(pop, idx + |out|, steps, k + 1);
      MembersAppend(out, Offspring(pop, idx + |out|, steps, k + 1));
    }
  }

  lemma MembersAppend(a: seq<Chromosome>, b: seq<Chromosome>)
    requires AllMembers(a) && AllMembers(b)
    ensures AllMembers(a + b)
  {
    forall i | 0 <= i < |a + b| ensures Member((a + b)[i]) {
      if i >= |a| {
        assert (a + b)[i] == b[i - |a|];
      }
    }
  }

  /** The whole unsorted next generation consists of members. */
  lemma NextGenerationMembers(pop: seq<Chromosome>, eliteCount: nat, steps: seq<Step>)
    requires AllMembers(pop) && eliteCount <= |pop|
    requires |steps| >= |pop| - eliteCount
    requires ValidSteps(steps, |pop|)
    ensures AllMembers(NextGeneration(pop, eliteCount, steps))
  {
    OffspringMembers(pop, eliteCount, steps, 0);
    var next := NextGeneration(pop, eliteCount, steps);
    assert next == pop[..eliteCount] + Offspring(pop, eliteCount, steps, 0);
  }

  /** Rearranging a sequence of members gives members. */
  lemma MembersOfPermutation(a: seq<Chromosome>, b: seq<Chromosome>)
    requires AllMembers(a) && multiset(a) == multiset(b)
    ensures AllMembers(b)
  {
    forall i | 0 <= i < |b| ensures Member(b[i]) {
      assert b[i] in multiset(a);
    }
  }

  /** The slots of `next` from `idx` on hold what the fill loop writes there,
      `steps[k]` being the draws of the next iteration. */
  predicate Remaining(pop: seq<Chromosome>, steps: seq<Step>, k: nat, idx: nat, next: seq<Chromosome>)
    requires AllFullLength(pop) && idx <= |pop| == |next|
    requires k <= |steps| && |steps| - k >= |pop| - idx
    requires ValidSteps(steps, |pop|)
  {
    next[idx..] == Rest(pop, idx, steps, k)
  }

  /** The offspring as the fill loop sees them: the chromosomes still to be
      written from slot `idx` on. Stating the loop's facts through this name
      keeps each of them to one unfolding of Offspring. */
  function Rest(pop: seq<Chromosome>, idx: nat, steps: seq<Step>, k: nat): seq<Chromosome>
    requires AllFullLength(pop) && idx <= |pop|
    requires k <= |steps| && |steps| - k >= |pop| - idx
    requires ValidSteps(steps, |pop|)
  {
    Offspring(pop, idx, steps, k)
  }

  /** One iteration of the fill loop: the offspring from slot `idx` on start
      with what the iteration writes and continue with the offspring of the
      remaining steps. */
  lemma OffspringStep(pop: seq<Chromosome>, idx: nat, steps: seq<Step>, k: nat)
    requires AllFullLength(pop) && idx < |pop|
    requires k <= |steps| && |steps| - k >= |pop| - idx
    requires ValidSteps(steps, |pop|)
    ensures var out := StepOutput(pop, idx, steps[k]);
      Rest(pop, idx, steps, k) == out + Rest(pop, idx + |out|, steps, k + 1)
  {
    assert Rest(pop, idx, steps, k) == Iterations(pop, idx, steps, k);
  }

  /** Elitism: the old elite prefix is part of the next generation. */
  lemma NextGenerationKeepsElite(pop: seq<Chromosome>, eliteCount: nat, steps: seq<Step>)
    requires AllFullLength(pop) && eliteCount <= |pop|
    requires |steps| >= |pop| - eliteCount
    requires ValidSteps(steps, |pop|)
    ensures multiset(pop[..eliteCount]) <= multiset(NextGeneration(pop, eliteCount, steps))
  {
    var next := NextGeneration(pop, eliteCount, steps);
    assert next == next[..eliteCount] + next[eliteCount..];
  }

  /** With at least one elite, the best fitness of a sorted next generation is no
      worse than the old best. */
  lemma NextGenerationKeepsBest(pop: seq<Chromosome>, eliteCount: nat, steps: seq<Step>, sorted: seq<Chromosome>)
    requires AllFullLength(pop) && 1 <= eliteCount <= |pop|
    requires |steps| >= |pop| - eliteCount
    requires ValidSteps(steps, |pop|)
    requires SortedByFitness(sorted) && multiset(sorted) == multiset(NextGeneration(pop, eliteCount, steps))
    ensures sorted[0].fitness <= pop[0].fitness
  {
    NextGenerationKeepsElite(pop, eliteCount, steps);
    assert pop[0] in multiset(pop[..eliteCount]);
    assert pop[0] in multiset(sorted);
    SortedHeadIsFittest(sorted, pop[0]);
  }

  /** In a sorted sequence the first element is at least as fit as any element. */
  lemma SortedHeadIsFittest(s: seq<Chromosome>, x: Chromosome)
    requires SortedByFitness(s) && x in s
    ensures s[0].fitness <= x.fitness
  {
    var i :| 0 <= i < |s| && s[i] == x;
  }

  /** A copy step writes the member at its slot: changed in exactly one position
      when its mutation coin comes up, unchanged otherwise. */
  lemma CopyStepDifferences(pop: seq<Chromosome>, idx: nat, step: Step)
    requires AllFullLength(pop) && AllMembers(pop)
    requires idx < |pop| && ValidStep(step, |pop|) && step.Copy?
    ensures Differences(pop[idx].gene, StepOutput(pop, idx, step)[0].gene) == if step.mutate then 1 else 0
  {
    assert Member(pop[idx]);
    if step.mutate {
      MutateChangesExactlyOne(pop[idx], step.mutation);
    } else {
      DifferencesSelf(pop[idx].gene);
    }
  }

  /** A crossover step with room for both children and no mutation writes two
      chromosomes whose fitnesses add up to those of the two tournament winners. */
  lemma CrossStepConservesFitness(pop: seq<Chromosome>, idx: nat, step: Step)
    requires AllFullLength(pop) && AllMembers(pop)
    requires idx + 1 < |pop| && ValidStep(step, |pop|)
    requires step.Cross? && !step.mutate0 && !step.mutate1
    ensures var out := StepOutput(pop, idx, step);
      out[0].fitness + out[1].fitness
        == TournamentWinner(pop, step.left).fitness + TournamentWinner(pop, step.right).fitness
  {
    var p0, p1 := TournamentWinner(pop, step.left), TournamentWinner(pop, step.right);
    assert Member(p0) && Member(p1);
    MateConservesFitness(p0, p1, step.pivot);
  }

  /** With no crossover and no mutation, the fill loop copies the old members slot by slot. */
  lemma {:induction false} OffspringWithoutVariation(pop: seq<Chromosome>, idx: nat, steps: seq<Step>, k: nat)
    requires AllFullLength(pop) && idx <= |pop|
    requires k <= |steps| && |steps| - k >= |pop| - idx
    requires ValidSteps(steps, |pop|)
    requires forall i :: k <= i < |steps| ==> steps[i].Copy? && !steps[i].mutate
    ensures Offspring(pop, idx, steps, k) == pop[idx..]
    decreases |pop| - idx
  {
    if idx < |pop| {
      OffspringWithoutVariation(pop, idx + 1, steps, k + 1);
      assert Offspring(pop, idx, steps, k) == [pop[idx]] + Offspring(pop, idx + 1, steps, k + 1);
      assert pop[idx..] == [pop[idx]] + pop[idx + 1..];
    }
  }

  /** With no crossover and no mutation, the next generation is the old population. */
  lemma NextGenerationWithoutVariation(pop: seq<Chromosome>, eliteCount: nat, steps: seq<Step>)
    requires AllFullLength(pop) && eliteCount <= |pop|
    requires |steps| >= |pop| - eliteCount
    requires ValidSteps(steps, |pop|)
    requires forall i :: 0 <= i < |steps| ==> steps[i].Copy? && !steps[i].mutate
    ensures NextGeneration(pop, eliteCount, steps) == pop
  {
    OffspringWithoutVariation(pop, eliteCount, steps, 0);
    assert pop == pop[..eliteCount] + pop[eliteCount..];
  }

  // ---------------------------------------------------------------------
  // Sorting (Array.Sort with the fitness ordering)

  method Swap(a: array<Chromosome>, i: nat, j: nat)
    requires i < a.Length && j < a.Length
    modifies a
    ensures a[..] == old(a[..])[i := old(a[j])][j := old(a[i])]
    ensures multiset(a[..]) == multiset(old(a[..]))
  {
    a[i], a[j] := a[j], a[i];
  }

  /** Sorts `a` ascending by fitness, in place (an insertion sort; the original's
      sort is not stable either, so only the order and the contents are promised). */
  method SortByFitness(a: array<Chromosome>)
    modifies a
    ensures SortedByFitness(a[..])
    ensures multiset(a[..]) == multiset(old(a[..]))
  {
    for i := 0 to a.Length
      invariant SortedByFitness(a[..i])
      invariant multiset(a[..]) == multiset(old(a[..]))
    {
      Insert(a, i);
    }
    assert a[..a.Length] == a[..];
  }

  /** Moves `a[i]` left past every element of greater fitness, so that a
      sorted prefix of length `i` becomes one of length `i + 1`. */
  method Insert(a: array<Chromosome>, i: nat)
    requires i < a.Length && SortedByFitness(a[..i])
    modifies a
    ensures SortedByFitness(a[..i + 1])
    ensures multiset(a[..]) == multiset(old(a[..]))
  {
    var j := i;
    while j > 0 && a[j - 1].fitness > a[j].fitness
      invariant 0 <= j <= i
      invariant multiset(a[..]) == multiset(old(a[..]))
      invariant forall p, q :: 0 <= p < q <= i && p != j && q != j ==> a[p].fitness <= a[q].fitness
      invariant forall q :: j < q <= i ==> a[j].fitness < a[q].fitness
    {
      Swap(a, j - 1, j);
      j := j - 1;
    }
  }

  // ---------------------------------------------------------------------
  // The population

  class Population {
    const crossover: real
    const elitism: real
    const mutation: real
    var populace: array<Chromosome>

    /** A non-empty array of members, sorted by fitness. */
    ghost predicate Valid()
      reads this, populace
    {
      populace.Length > 0 && AllMembers(populace[..]) && SortedByFitness(populace[..])
    }

    /** Generates `size` random chromosomes, `draws[i]` holding the draws of the
        i-th, and sorts them. The ratios are stored as given. */
    constructor (size: nat, crossoverRatio: real, elitismRatio: real, mutationRatio: real,
                 draws: seq<seq<nat>>)
      requires size > 0
      requires 0.0 <= crossoverRatio <= 1.0 && 0.0 <= elitismRatio <= 1.0 && 0.0 <= mutationRatio <= 1.0
      requires |draws| == size && forall i :: 0 <= i < size ==> GeneDraws(draws[i])
      ensures Valid() && fresh(populace) && populace.Length == size
      ensures multiset(populace[..]) == multiset(seq(size, i requires 0 <= i < size => RandomChromosome(draws[i])))
      ensures GetCrossover() == crossoverRatio && GetElitism() == elitismRatio && GetMutation() == mutationRatio
    {
      crossover, elitism, mutation := crossoverRatio, elitismRatio, mutationRatio;
      var arr := new Chromosome[size];
      for i := 0 to size
        invariant forall j :: 0 <= j < i ==> arr[j] == RandomChromosome(draws[j])
      {
        var c := GenerateRandom(draws[i]);
        arr[i] := c;
      }
      assert arr[..] == seq(size, i requires 0 <= i < size => RandomChromosome(draws[i]));
      ghost var generated := arr[..];
      SortByFitness(arr);
      MembersOfPermutation(generated, arr[..]);
      populace := arr;
    }

    function GetCrossover(): real
    {
      crossover
    }

    function GetElitism(): real
    {
      elitism
    }

    function GetMutation(): real
    {
      mutation
    }

    /** A copy of the current population: a fresh array, so writing to it leaves the population as it was. */
    method GetPopulation() returns (arr: array<Chromosome>)
      requires Valid()
      ensures fresh(arr) && arr[..] == populace[..]
      ensures SortedByFitness(arr[..]) && arr.Length == populace.Length
    {
      arr := new Chromosome[populace.Length];
      forall i | 0 <= i < arr.Length {
        arr[i] := populace[i];
      }
    }

    /** Runs the two tournaments of one crossover and returns their winners. */
    method SelectParents(left: Tournament, right: Tournament) returns (p0: Chromosome, p1: Chromosome)
      requires ValidTournament(left, populace.Length) && ValidTournament(right, populace.Length)
      ensures p0 == TournamentWinner(populace[..], left) && p1 == TournamentWinner(populace[..], right)
      ensures p0 in populace[..] && p1 in populace[..]
    {
      var tournaments := [left, right];
      var parents := new Chromosome[2];
      ghost var pop := populace[..];
      for i := 0 to 2
        invariant forall k :: 0 <= k < i ==> parents[k] == TournamentWinner(pop, tournaments[k])
      {
        var t := tournaments[i];
        ghost var challengers := Challengers(pop, t);
        var best := populace[t.first];
        for j := 0 to TournamentSize
          invariant Fittest(best, challengers[j..]) == TournamentWinner(pop, t)
        {
          var idx := t.rounds[j];
          assert challengers[j..][0] == populace[idx] && challengers[j..][1..] == challengers[j + 1..];
          if CompareTo(populace[idx], best) < 0 {
            best := populace[idx];
          }
        }
        parents[i] := best;
      }
      p0, p1 := parents[0], parents[1];
    }

    /** Builds the next generation in a buffer — the first `eliteCount` members
        unchanged, then the fill loop — sorts it and makes it the population.
        `eliteCount` stands for `round(size * elitism)`. */
    method Evolve(eliteCount: nat, steps: seq<Step>)
      requires Valid()
      requires eliteCount <= populace.Length
      requires |steps| >= populace.Length - eliteCount
      requires ValidSteps(steps, populace.Length)
      modifies this
      ensures Valid() && fresh(populace) && populace.Length == old(populace.Length)
      ensures multiset(populace[..]) == multiset(NextGeneration(old(populace[..]), eliteCount, steps))
      ensures multiset(old(populace[..eliteCount])) <= multiset(populace[..])
      ensures eliteCount >= 1 ==> populace[0].fitness <= old(populace[0].fitness)
    {
      ghost var pop := populace[..];
      var buffer := new Chromosome[populace.Length];
      forall s | 0 <= s < eliteCount {
        buffer[s] := populace[s];
      }
      assert populace[..] == pop;
      FillOffspring(buffer, eliteCount, steps);
      ghost var next := buffer[..];
      assert next == NextGeneration(pop, eliteCount, steps);
      SortByFitness(buffer);
      ghost var sorted := buffer[..];
      assert multiset(sorted) == multiset(next);
      NextGenerationMembers(pop, eliteCount, steps);
      MembersOfPermutation(next, sorted);
      populace := buffer;
      NextGenerationKeepsElite(pop, eliteCount, steps);
      if eliteCount >= 1 {
        NextGenerationKeepsBest(pop, eliteCount, steps, sorted);
      }
    }

    /** The chromosomes one iteration of the fill loop writes from slot `idx`
        with the draws `steps[k]`: for a crossover step the two tournaments, the
        mating and the mutation coin of each child there is a slot for; for a
        copy step the mutation coin of the member at slot `idx`. They are the
        first of the offspring still to be written, the rest following them. */
    method Breed(idx: nat, steps: seq<Step>, k: nat) returns (out: seq<Chromosome>)
      requires AllFullLength(populace[..]) && idx < populace.Length
      requires k <= |steps| && |steps| - k >= populace.Length - idx
      requires ValidSteps(steps, populace.Length)
      ensures |out| == if steps[k].Cross? && idx + 1 < populace.Length then 2 else 1
      ensures Rest(populace[..], idx, steps, k) == out + Rest(populace[..], idx + |out|, steps, k + 1)
    {
      var step := steps[k];
      OffspringStep(populace[..], idx, steps, k);
      if step.Cross? {
        var p0, p1 := SelectParents(step.left, step.right);
        var children := Mate(p0, p1, step.pivot);
        var first := if step.mutate0 then Mutate(children.0, step.mutation0) else children.0;
        if idx + 1 < populace.Length {
          var second := if step.mutate1 then Mutate(children.1, step.mutation1) else children.1;
          out := [first, second];
        } else {
          out := [first];
        }
      } else {
        assert populace[idx] == populace[..][idx];
        out := [if step.mutate then Mutate(populace[idx], step.mutation) else populace[idx]];
      }
    }

    /** One iteration of the fill loop: writes what Breed returns the way the
        loop does — a crossover step writes the first child, advances, writes
        the second child when a slot is left, and advances again; a copy step
        writes one slot and advances. No other slot changes. */
    method Iterate(buffer: array<Chromosome>, idx: nat, steps: seq<Step>, k: nat, ghost next: seq<Chromosome>)
      returns (after: nat)
      requires AllFullLength(populace[..]) && buffer != populace
      requires idx < populace.Length == buffer.Length == |next|
      requires k <= |steps| && |steps| - k >= populace.Length - idx
      requires ValidSteps(steps, populace.Length)
      requires Remaining(populace[..], steps, k, idx, next)
      modifies buffer
      ensures after == idx + if steps[k].Cross? then 2 else 1
      ensures forall s :: 0 <= s < buffer.Length && !(idx <= s < after) ==> buffer[s] == old(buffer[s])
      ensures buffer[idx] == next[idx]
      ensures idx + 1 < after && idx + 1 < buffer.Length ==> buffer[idx + 1] == next[idx + 1]
      ensures after <= buffer.Length ==> Remaining(populace[..], steps, k + 1, after, next)
    {
      var out := Breed(idx, steps, k);
      assert next[idx..] == out + Rest(populace[..], idx + |out|, steps, k + 1);
      assert next[idx] == next[idx..][0];
      after := idx;
      buffer[after] := out[0];
      after := after + 1;
      if steps[k].Cross? {
        if after < buffer.Length {
          assert next[after] == next[idx..][1];
          buffer[after] := out[1];
        }
        after := after + 1;
      }
    }

    /** The fill loop of Evolve: one iteration per Step of `steps`, in order,
        until every slot from `eliteCount` on is written. */
    method FillOffspring(buffer: array<Chromosome>, eliteCount: nat, steps: seq<Step>)
      requires AllFullLength(populace[..]) && buffer != populace
      requires eliteCount <= populace.Length == buffer.Length
      requires |steps| >= populace.Length - eliteCount
      requires ValidSteps(steps, populace.Length)
      requires buffer[..eliteCount] == populace[..eliteCount]
      modifies buffer
      ensures buffer[..] == NextGeneration(populace[..], eliteCount, steps)
    {
      ghost var pop := populace[..];
      ghost var next := NextGeneration(pop, eliteCount, steps);
      var n := buffer.Length;
      var idx := eliteCount;
      var k := 0;
      while idx < n
        invariant eliteCount <= idx <= n + 1
        invariant k <= idx - eliteCount
        invariant populace[..] == pop
        invariant forall s :: 0 <= s < idx && s < n ==> buffer[s] == next[s]
        invariant idx <= n ==> Remaining(pop, steps, k, idx, next)
        decreases n + 1 - idx
      {
        idx := Iterate(buffer, idx, steps, k, next);
        k := k + 1;
      }
      forall s | 0 <= s < n ensures buffer[..][s] == next[s] {
        assert buffer[s] == next[s];
      }
      assert buffer[..] == next;
    }
  }
}
