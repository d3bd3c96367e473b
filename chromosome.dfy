/** A candidate solution of the genetic algorithm: an immutable gene string
    together with its cached fitness, the distance from the fixed target
    "Hello, world!". Every random draw the original makes is a parameter here. */
module Chromosomes {

  /** A UTF-16 code unit: the range of a C# `char`. */
  type Code = c: int | 0 <= c < 0x1_0000

  type Gene = seq<Code>

  /** The character codes of "Hello, world!", the gene every search aims for. */
  const Target: Gene := [72, 101, 108, 108, 111, 44, 32, 119, 111, 114, 108, 100, 33]

  /** `Random.Next()` returns a value in [0, Int32.MaxValue). */
  const RandomBound := 0x7FFF_FFFF

  /** What a call that may throw returns: `None` stands for the exception. */
  datatype Option<T> = None | Some(value: T)

  /** The codes of a string literal whose characters all fit in a C# `char`. */
  function Codes(s: string): (g: Gene)
    requires forall i :: 0 <= i < |s| ==> s[i] as int < 0x1_0000
    ensures |g| == |s|
    ensures forall i :: 0 <= i < |s| ==> g[i] == s[i] as int
  {
    seq(|s|, i requires 0 <= i < |s| => s[i] as int)
  }

  function Distance(a: int, b: int): nat
  {
    if a < b then b - a else a - b
  }

  /** The fitness of a gene: the sum, position by position, of the distances
      between its codes and the target's, accumulated from the left. Only genes
      no longer than the target have one; a longer one would index past it. */
  function Fitness(gene: Gene): nat
    requires |gene| <= |Target|
  {
    if gene == [] then 0
    else Fitness(gene[..|gene| - 1]) + Distance(gene[|gene| - 1], Target[|gene| - 1])
  }

  /** The number of positions at which two genes of one length differ. */
  function Differences(a: Gene, b: Gene): nat
    requires |a| == |b|
  {
    if a == [] then 0
    else (if a[0] != b[0] then 1 else 0) + Differences(a[1..], b[1..])
  }

  datatype Chromosome = Chromosome(gene: Gene, fitness: int)

  /** The object invariant: the cached fitness belongs to the gene. */
  predicate Consistent(c: Chromosome)
  {
    |c.gene| <= |Target| && c.fitness == Fitness(c.gene)
  }

  /** The constructor, for a gene whose fitness is defined. */
  function New(gene: Gene): (c: Chromosome)
    requires |gene| <= |Target|
    ensures Consistent(c) && c.gene == gene
  {
    Chromosome(gene, Fitness(gene))
  }

  /** The constructor on any gene: a gene longer than the target makes the
      fitness loop index past the target, and the constructor throws. */
  function Construct(gene: Gene): (r: Option<Chromosome>)
    ensures r.Some? <==> |gene| <= |Target|
    ensures r.Some? ==> Consistent(r.value) && r.value.gene == gene
  {
    if |gene| <= |Target| then Some(New(gene)) else None
  }

  /** The fitness loop of the constructor. */
  method CalculateFitness(gene: Gene) returns (fitness: int)
    requires |gene| <= |Target|
    ensures fitness == Fitness(gene)
  {
    fitness := 0;
    for i := 0 to |gene|
      invariant fitness == Fitness(gene[..i])
    {
      assert gene[..i + 1][..i] == gene[..i];
      fitness := fitness + Distance(gene[i], Target[i]);
    }
    assert gene[..|gene|] == gene;
  }

  /** The draws of one random gene: one `rnd.Next(90)` result per target position. */
  predicate GeneDraws(draws: seq<nat>)
  {
    |draws| == |Target| && forall i :: 0 <= i < |draws| ==> draws[i] < 90
  }

  /** The gene whose code at position `i` is `draws[i] + 32`. */
  function RandomGene(draws: seq<nat>): (g: Gene)
    requires GeneDraws(draws)
    ensures |g| == |Target|
    ensures forall i :: 0 <= i < |Target| ==> g[i] == draws[i] + 32
  {
    seq(|draws|, i requires 0 <= i < |draws| => draws[i] + 32)
  }

  /** A chromosome of the gene the draws give, every code in the printable range [32, 121]. */
  function RandomChromosome(draws: seq<nat>): (c: Chromosome)
    requires GeneDraws(draws)
    ensures Consistent(c) && |c.gene| == |Target|
    ensures forall i :: 0 <= i < |Target| ==> 32 <= c.gene[i] <= 121
  {
    New(RandomGene(draws))
  }

  /** Fills a gene of the target's length with codes `rnd.Next(90) + 32`;
      `draws` holds the successive `rnd.Next(90)` results. */
  method GenerateRandom(draws: seq<nat>) returns (c: Chromosome)
    requires GeneDraws(draws)
    ensures c == RandomChromosome(draws)
    ensures Consistent(c) && |c.gene| == |Target|
    ensures forall i :: 0 <= i < |Target| ==> 32 <= c.gene[i] <= 121
  {
    var arr := new Code[|Target|];
    for i := 0 to arr.Length
      invariant forall j :: 0 <= j < i ==> arr[j] == draws[j] + 32
    {
      arr[i] := draws[i] + 32;
    }
    assert arr[..] == RandomGene(draws);
    var fitness := CalculateFitness(arr[..]);
    c := Chromosome(arr[..], fitness);
  }

  /** The draws a mutation makes: `rnd.Next(length)` and `rnd.Next()`. */
  datatype MutationDraw = MutationDraw(index: nat, raw: nat)

  predicate ValidMutation(c: Chromosome, d: MutationDraw)
  {
    d.index < |c.gene| && d.raw < RandomBound
  }

  /** The amount added to the chosen code: always in [32, 121]. */
  function Delta(raw: nat): (delta: int)
    ensures 32 <= delta <= 121
  {
    raw % 90 + 32
  }

  /** A new chromosome whose code at the drawn index is replaced by
      `(old + delta) % 122`; the receiver is a value and stays as it was. */
  function Mutate(c: Chromosome, d: MutationDraw): (r: Chromosome)
    requires |c.gene| <= |Target| && ValidMutation(c, d)
    ensures Consistent(r) && |r.gene| == |c.gene|
    ensures forall j :: 0 <= j < |c.gene| && j != d.index ==> r.gene[j] == c.gene[j]
    ensures r.gene[d.index] == (c.gene[d.index] + Delta(d.raw)) % 122
    ensures r.gene[d.index] < 122
  {
    New(c.gene[d.index := (c.gene[d.index] + Delta(d.raw)) % 122])
  }

  /** The codes of `a` before `pivot` followed by those of `b` from `pivot` up to `n`. */
  function Splice(a: Gene, b: Gene, pivot: nat, n: nat): (g: Gene)
    requires pivot <= |a| && pivot <= n <= |b|
    ensures |g| == n
    ensures forall i :: 0 <= i < n ==> g[i] == if i < pivot then a[i] else b[i]
  {
    a[..pivot] + b[pivot..n]
  }

  /** Single-point crossover at `pivot`, a draw of `rnd.Next(length)` (which is
      0 for an empty gene). The mate must be at least as long as the receiver,
      since the copies read the mate up to the receiver's length. */
  function Mate(c: Chromosome, mate: Chromosome, pivot: nat): (children: (Chromosome, Chromosome))
    requires |c.gene| <= |Target| && |c.gene| <= |mate.gene|
    requires pivot < |c.gene| || pivot == 0
    ensures Consistent(children.0) && Consistent(children.1)
    ensures |children.0.gene| == |c.gene| && |children.1.gene| == |c.gene|
    ensures forall i :: 0 <= i < |c.gene| ==>
      children.0.gene[i] == (if i < pivot then c.gene[i] else mate.gene[i]) &&
      children.1.gene[i] == (if i < pivot then mate.gene[i] else c.gene[i])
  {
    (New(Splice(c.gene, mate.gene, pivot, |c.gene|)),
     New(Splice(mate.gene, c.gene, pivot, |c.gene|)))
  }

  /** The natural ordering: by fitness, lower is better. */
  function CompareTo(a: Chromosome, b: Chromosome): (r: int)
    ensures r == -1 || r == 0 || r == 1
    ensures r < 0 <==> a.fitness < b.fitness
    ensures r == 0 <==> a.fitness == b.fitness
    ensures r > 0 <==> a.fitness > b.fitness
  {
    if a.fitness < b.fitness then -1
    else if a.fitness > b.fitness then 1
    else 0
  }

  /** The argument of `Equals`, a C# object: null, a chromosome, or anything else. */
  datatype Object = Null | Boxed(chromosome: Chromosome) | Other

  /** Equal to a chromosome with the same gene and the same fitness, and to nothing else. */
  function Equals(c: Chromosome, o: Object): (r: bool)
    ensures r <==> o == Boxed(c)
  {
    o.Boxed? && o.chromosome.gene == c.gene && o.chromosome.fitness == c.fitness
  }

  // ---------------------------------------------------------------------
  // Fitness

  /** A gene has fitness 0 exactly when it agrees with the target on its whole length. */
  lemma {:induction false} FitnessZeroIff(gene: Gene)
    requires |gene| <= |Target|
    ensures Fitness(gene) == 0 <==> gene == Target[..|gene|]
  {
    if gene != [] {
      var n := |gene| - 1;
      FitnessZeroIff(gene[..n]);
      assert gene == gene[..n] + [gene[n]];
      assert Target[..n + 1] == Target[..n] + [Target[n]];
    }
  }

  /** A full-length chromosome is a solution (fitness 0) exactly when its gene is "Hello, world!". */
  lemma SolvedIff(c: Chromosome)
    requires Consistent(c) && |c.gene| == |Target|
    ensures c.fitness == 0 <==> c.gene == Target
  {
    FitnessZeroIff(c.gene);
  }

  /** Replacing one code changes the fitness by the change of that position's distance alone. */
  lemma {:induction false} FitnessUpdate(gene: Gene, i: nat, v: Code)
    requires |gene| <= |Target| && i < |gene|
    ensures Fitness(gene[i := v]) + Distance(gene[i], Target[i]) == Fitness(gene) + Distance(v, Target[i])
  {
    var n := |gene| - 1;
    var updated := gene[i := v];
    if i == n {
      assert updated[..n] == gene[..n];
    } else {
      assert updated[..n] == gene[..n][i := v];
      FitnessUpdate(gene[..n], i, v);
    }
  }

  /** Two genes built by exchanging, position by position, the codes of two others
      have the same total fitness as those two. */
  lemma {:induction false} FitnessExchange(a: Gene, b: Gene, x: Gene, y: Gene)
    requires |a| == |b| == |x| == |y| <= |Target|
    requires forall i :: 0 <= i < |a| ==>
      (x[i] == a[i] && y[i] == b[i]) || (x[i] == b[i] && y[i] == a[i])
    ensures Fitness(x) + Fitness(y) == Fitness(a) + Fitness(b)
  {
    if a != [] {
      var n := |a| - 1;
      FitnessExchange(a[..n], b[..n], x[..n], y[..n]);
    }
  }

  /** The fitness values the original's tests expect of four literal genes. */
  lemma GoldenFitness()
    ensures Codes("Hello, world!") == Target
    ensures New(Codes("Hello, world!")).fitness == 0
    ensures New(Codes("H5p&J;!l<X\\7l")).fitness == 399
    ensures New(Codes("Vc;fx#QRP8V\\$")).fitness == 297
    ensures New(Codes("t\\O`E_Jx$n=NF")).fitness == 415
  {
    GoldenFitnessOfTarget();
    GoldenFitness399();
    GoldenFitness297();
    GoldenFitness415();
  }

  lemma GoldenFitnessOfTarget()
    ensures Codes("Hello, world!") == Target
    ensures New(Codes("Hello, world!")).fitness == 0
  {
    FitnessZeroIff(Target);
    assert Target[..|Target|] == Target;
  }

  lemma GoldenFitness399()
    ensures New(Codes("H5p&J;!l<X\\7l")).fitness == 399
  {
    assert Codes("H5p&J;!l<X\\7l") == [72, 53, 112, 38, 74, 59, 33, 108, 60, 88, 92, 55, 108];
    GoldenValue([72, 53, 112, 38, 74, 59, 33, 108, 60, 88, 92, 55, 108], 399);
  }

  lemma GoldenFitness297()
    ensures New(Codes("Vc;fx#QRP8V\\$")).fitness == 297
  {
    assert Codes("Vc;fx#QRP8V\\$") == [86, 99, 59, 102, 120, 35, 81, 82, 80, 56, 86, 92, 36];
    GoldenValue([86, 99, 59, 102, 120, 35, 81, 82, 80, 56, 86, 92, 36], 297);
  }

  lemma GoldenFitness415()
    ensures New(Codes("t\\O`E_Jx$n=NF")).fitness == 415
  {
    assert Codes("t\\O`E_Jx$n=NF") == [116, 92, 79, 96, 69, 95, 74, 120, 36, 110, 61, 78, 70];
    GoldenValue([116, 92, 79, 96, 69, 95, 74, 120, 36, 110, 61, 78, 70], 415);
  }

  /** Evaluates the fitness of a full-length gene one position at a time. */
  lemma GoldenValue(gene: Gene, expected: nat)
    requires |gene| == |Target|
    requires expected == Distance(gene[0], Target[0]) + Distance(gene[1], Target[1])
      + Distance(gene[2], Target[2]) + Distance(gene[3], Target[3]) + Distance(gene[4], Target[4])
      + Distance(gene[5], Target[5]) + Distance(gene[6], Target[6]) + Distance(gene[7], Target[7])
      + Distance(gene[8], Target[8]) + Distance(gene[9], Target[9]) + Distance(gene[10], Target[10])
      + Distance(gene[11], Target[11]) + Distance(gene[12], Target[12])
    ensures Fitness(gene) == expected
  {
    FitnessStep(gene, 0);
    FitnessStep(gene, 1);
    FitnessStep(gene, 2);
    FitnessStep(gene, 3);
    FitnessStep(gene, 4);
    FitnessStep(gene, 5);
    FitnessStep(gene, 6);
    FitnessStep(gene, 7);
    FitnessStep(gene, 8);
    FitnessStep(gene, 9);
    FitnessStep(gene, 10);
    FitnessStep(gene, 11);
    FitnessStep(gene, 12);
    assert gene[..13] == gene;
  }

  /** The fitness of a prefix one position longer. */
  lemma FitnessStep(gene: Gene, k: nat)
    requires |gene| <= |Target| && k < |gene|
    ensures Fitness(gene[..k + 1]) == Fitness(gene[..k]) + Distance(gene[k], Target[k])
  {
    assert gene[..k + 1][..k] == gene[..k];
  }

  // ---------------------------------------------------------------------
  // Mutation

  lemma {:induction false} DifferencesSelf(a: Gene)
    ensures Differences(a, a) == 0
  {
    if a != [] {
      DifferencesSelf(a[1..]);
    }
  }

  /** Overwriting one position makes the genes differ there and nowhere else. */
  lemma {:induction false} DifferencesAfterUpdate(a: Gene, i: nat, v: Code)
    requires i < |a|
    ensures Differences(a, a[i := v]) == if a[i] == v then 0 else 1
  {
    if i == 0 {
      assert a[i := v][1..] == a[1..];
      DifferencesSelf(a[1..]);
    } else {
      assert a[i := v][1..] == a[1..][i - 1 := v];
      DifferencesAfterUpdate(a[1..], i - 1, v);
    }
  }

  /** A mutation changes exactly one position, the drawn one: adding a delta in
      [32, 121] modulo 122 never gives back the old code. */
  lemma MutateChangesExactlyOne(c: Chromosome, d: MutationDraw)
    requires Consistent(c) && ValidMutation(c, d)
    ensures Mutate(c, d).gene[d.index] != c.gene[d.index]
    ensures Differences(c.gene, Mutate(c, d).gene) == 1
  {
    var r := Mutate(c, d);
    var code, delta := c.gene[d.index], Delta(d.raw);
    if code < 122 {
      if code + delta < 122 {
        assert r.gene[d.index] == code + delta;
      } else {
        assert r.gene[d.index] == code + delta - 122;
      }
    }
    assert r.gene == c.gene[d.index := r.gene[d.index]];
    DifferencesAfterUpdate(c.gene, d.index, r.gene[d.index]);
  }

  /** A mutation moves the fitness by the change of the mutated position's distance only. */
  lemma MutateFitness(c: Chromosome, d: MutationDraw)
    requires Consistent(c) && ValidMutation(c, d)
    ensures Mutate(c, d).fitness + Distance(c.gene[d.index], Target[d.index])
         == c.fitness + Distance(Mutate(c, d).gene[d.index], Target[d.index])
  {
    var r := Mutate(c, d);
    assert r.gene == c.gene[d.index := r.gene[d.index]];
    FitnessUpdate(c.gene, d.index, r.gene[d.index]);
  }

  /** The wrap modulo 122 can leave the printable range [32, 121] that random
      genes start in: 'H' (72) plus a delta of 50 becomes code 0. */
  lemma MutateCanLeavePrintableRange()
    ensures Mutate(New(Target), MutationDraw(0, 18)).gene[0] == 0
  {
  }

  // ---------------------------------------------------------------------
  // Crossover

  /** Crossover conserves genetic material: the two children together carry the
      parents' codes, so their fitnesses add up to the parents'. */
  lemma MateConservesFitness(c: Chromosome, mate: Chromosome, pivot: nat)
    requires Consistent(c) && Consistent(mate)
    requires |c.gene| == |mate.gene|
    requires pivot < |c.gene| || pivot == 0
    ensures Mate(c, mate, pivot).0.fitness + Mate(c, mate, pivot).1.fitness == c.fitness + mate.fitness
  {
    var children := Mate(c, mate, pivot);
    var x, y := children.0.gene, children.1.gene;
    forall i | 0 <= i < |c.gene|
      ensures (x[i] == c.gene[i] && y[i] == mate.gene[i]) || (x[i] == mate.gene[i] && y[i] == c.gene[i])
    {
    }
    FitnessExchange(c.gene, mate.gene, x, y);
  }

  /** Crossing the two children again at the same pivot gives back the parents. */
  lemma MateInvolution(c: Chromosome, mate: Chromosome, pivot: nat)
    requires Consistent(c) && Consistent(mate)
    requires |c.gene| == |mate.gene|
    requires pivot < |c.gene| || pivot == 0
    ensures Mate(Mate(c, mate, pivot).0, Mate(c, mate, pivot).1, pivot) == (c, mate)
  {
    SpliceTwice(c.gene, mate.gene, pivot);
    SpliceTwice(mate.gene, c.gene, pivot);
  }

  /** Splicing the two splices again at the same pivot gives back the first gene. */
  lemma SpliceTwice(a: Gene, b: Gene, pivot: nat)
    requires |a| == |b| && pivot <= |a|
    ensures Splice(Splice(a, b, pivot, |a|), Splice(b, a, pivot, |a|), pivot, |a|) == a
  {
    var again := Splice(Splice(a, b, pivot, |a|), Splice(b, a, pivot, |a|), pivot, |a|);
    forall i | 0 <= i < |a|
      ensures again[i] == a[i]
    {
    }
  }

  // ---------------------------------------------------------------------
  // Ordering and equality

  /** CompareTo is a total preorder: reflexive, antisymmetric in sign and transitive. */
  lemma CompareToOrder(a: Chromosome, b: Chromosome, c: Chromosome)
    ensures CompareTo(a, a) == 0
    ensures CompareTo(a, b) == -CompareTo(b, a)
    ensures CompareTo(a, b) <= 0 && CompareTo(b, c) <= 0 ==> CompareTo(a, c) <= 0
  {
  }

  /** The orderings the original's tests expect among the four literal genes. */
  lemma GoldenOrdering()
    ensures var c1, c2, c3, c4 := New(Codes("Hello, world!")), New(Codes("H5p&J;!l<X\\7l")),
                                  New(Codes("Vc;fx#QRP8V\\$")), New(Codes("t\\O`E_Jx$n=NF"));
      CompareTo(c1, c2) < 0 && CompareTo(c1, c3) < 0 && CompareTo(c1, c4) < 0 &&
      CompareTo(c2, c3) > 0 && CompareTo(c2, c4) < 0 && CompareTo(c3, c4) < 0
  {
    GoldenFitness();
  }

  /** For chromosomes whose fitness belongs to their gene, equality is gene equality;
      it is reflexive and symmetric and never holds of null or a non-chromosome. */
  lemma EqualsIsGeneEquality(a: Chromosome, b: Chromosome)
    requires Consistent(a) && Consistent(b)
    ensures Equals(a, Boxed(b)) <==> a.gene == b.gene
    ensures Equals(a, Boxed(a))
    ensures Equals(a, Boxed(b)) == Equals(b, Boxed(a))
    ensures !Equals(a, Null) && !Equals(a, Other)
  {
  }
}
