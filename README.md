# Genetic algorithm engine ("Hello, world!" search)

This project models the two classes of the C# genetic-algorithm library that hold its logic. It proves what they promise.

- `Chromosome` (module `Chromosomes`, `chromosome.dfy`) is an immutable gene string with a cached fitness.
  - The fitness is the sum of the per-position code distances to the target `"Hello, world!"`.
  - Operations: single-point mutation, single-point crossover, random generation, the fitness ordering and structural equality.
  - The chromosome is a value, so it is a `datatype`, and its operations are functions.
  - The two loops of the source are methods proved against those functions: the fitness loop (`CalculateFitness`) and the random fill (`GenerateRandom`).
- `Population` (module `Populations`, `population.dfy`) is a `class` holding an `array` of chromosomes, kept sorted by fitness.
  - `Evolve` copies the elite prefix into a fresh buffer.
  - It then runs the fill loop. The loop index advances by one after a copy step and by two after a crossover step, and can end one past the end.
  - Finally it sorts the buffer in place and makes it the population.
  - Parents come from tournament selection (`SelectParents`).
  - The whole fill loop is specified by the function `NextGeneration`. Elitism, membership and the effect of each kind of step are proved about that function.

Every random draw is a parameter:
- A mutation draw is `MutationDraw(index, raw)`, for `rnd.Next(length)` and `rnd.Next()`.
- The crossover pivot is a plain parameter.
- A tournament is `Tournament(first, rounds)`.
- The draws of one fill-loop iteration are a `Step`: `Copy` or `Cross`. The coin outcomes of `NextDouble() <= ratio` are booleans inside the step.
- `eliteCount` stands for `Math.Round(size * elitism)`.

## Model

| member | source | states |
|---|---|---|
| Chromosomes.New | geneticalgorithm-csharp/Chromosome.cs:24-28 | the constructor stores the gene and caches the fitness of that gene (`Consistent`) |
| Chromosomes.Construct | geneticalgorithm-csharp/Chromosome.cs:24-28 | construction succeeds exactly when the gene is no longer than the 13-code target; a longer gene makes the fitness loop index past the target and the constructor throws (`None`) |
| Chromosomes.CalculateFitness | geneticalgorithm-csharp/Chromosome.cs:61-72 | the accumulating loop returns `Fitness(gene)`, the sum of the per-position distances to the target |
| Chromosomes.FitnessZeroIff | geneticalgorithm-csharp/Chromosome.cs:61-72 | the fitness is 0 exactly when the gene agrees with the target on its whole length |
| Chromosomes.SolvedIff | geneticalgorithm-csharp/Chromosome.cs:14 | a full-length consistent chromosome has fitness 0 exactly when its gene is "Hello, world!" |
| Chromosomes.FitnessUpdate | geneticalgorithm-csharp/Chromosome.cs:61-72 | replacing one code changes the fitness by the change of that position's distance and nothing else |
| Chromosomes.FitnessExchange | geneticalgorithm-csharp/Chromosome.cs:61-72 | two genes that exchange the codes of two others position by position have the same fitness sum |
| Chromosomes.FitnessStep | geneticalgorithm-csharp/Chromosome.cs:66-69 | one more iteration of the fitness loop adds the distance at that position |
| Chromosomes.GoldenValue | geneticalgorithm-csharp/Chromosome.cs:61-72 | the fitness of a full-length gene is the sum of its 13 distances |
| Chromosomes.GoldenFitness | geneticalgorithm-csharp-tests/ChromosomeTest.cs:16-26 | the four literal genes of the tests have fitness 0, 399, 297 and 415 |
| Chromosomes.GoldenFitnessOfTarget | geneticalgorithm-csharp-tests/ChromosomeTest.cs:16-17 | "Hello, world!" is the target and has fitness 0 |
| Chromosomes.GoldenFitness399 | geneticalgorithm-csharp-tests/ChromosomeTest.cs:19-20 | the literal "H5p&J;!l<X\7l" has fitness 399 |
| Chromosomes.GoldenFitness297 | geneticalgorithm-csharp-tests/ChromosomeTest.cs:22-23 | the literal "Vc;fx#QRP8V\$" has fitness 297 |
| Chromosomes.GoldenFitness415 | geneticalgorithm-csharp-tests/ChromosomeTest.cs:25-26 | the literal "t\O`E_Jx$n=NF" has fitness 415 |
| Chromosomes.RandomGene | geneticalgorithm-csharp/Chromosome.cs:136-141 | the random gene has the target's length, and its code at position i is the i-th `rnd.Next(90)` draw plus 32 |
| Chromosomes.RandomChromosome | geneticalgorithm-csharp/Chromosome.cs:134-144 | a random chromosome is consistent, 13 codes long, and every code lies in [32, 121] |
| Chromosomes.GenerateRandom | geneticalgorithm-csharp/Chromosome.cs:134-144 | the fill loop builds exactly `RandomChromosome(draws)`: 13 codes in [32, 121] with their fitness |
| Chromosomes.Delta | geneticalgorithm-csharp/Chromosome.cs:88 | `rnd.Next() % 90 + 32` lies in [32, 121] |
| Chromosomes.Mutate | geneticalgorithm-csharp/Chromosome.cs:84-92 | a new consistent chromosome of the same length; every position except the drawn one is kept; the drawn one becomes `(old + delta) % 122`, which is below 122 |
| Chromosomes.DifferencesSelf | geneticalgorithm-csharp-tests/ChromosomeTest.cs:77-87 | a gene differs from itself in no position |
| Chromosomes.DifferencesAfterUpdate | geneticalgorithm-csharp-tests/ChromosomeTest.cs:77-87 | overwriting one position makes the genes differ in that position alone, unless the value is the same |
| Chromosomes.MutateChangesExactlyOne | geneticalgorithm-csharp/Chromosome.cs:84-92 | a mutation always changes the drawn position, because a delta in [32, 121] is never 0 modulo 122, and it changes no other position |
| Chromosomes.MutateFitness | geneticalgorithm-csharp/Chromosome.cs:84-92 | a mutation moves the fitness only by the change of the mutated position's distance |
| Chromosomes.MutateCanLeavePrintableRange | geneticalgorithm-csharp/Chromosome.cs:88-89 | the wrap modulo 122 can leave the printable range of random genes: 'H' plus a delta of 50 becomes code 0 |
| Chromosomes.Splice | geneticalgorithm-csharp/Chromosome.cs:116-121 | the two `Array.Copy` calls that fill one child take the first gene before the pivot and the second gene from the pivot on |
| Chromosomes.Mate | geneticalgorithm-csharp/Chromosome.cs:102-127 | two consistent children of the receiver's length: the first is `this[..p] + mate[p..]` and the second is `mate[..p] + this[p..]`, position by position |
| Chromosomes.MateConservesFitness | geneticalgorithm-csharp/Chromosome.cs:116-121 | the children's fitnesses add up to the parents' fitnesses |
| Chromosomes.SpliceTwice | geneticalgorithm-csharp/Chromosome.cs:116-121 | splicing the two splices again at the same pivot gives back the first gene |
| Chromosomes.MateInvolution | geneticalgorithm-csharp/Chromosome.cs:102-127 | mating the two children at the same pivot gives back the two parents |
| Chromosomes.CompareTo | geneticalgorithm-csharp/Chromosome.cs:152-164 | the result is -1, 0 or 1, exactly as the receiver's fitness is lower than, equal to or higher than the argument's |
| Chromosomes.CompareToOrder | geneticalgorithm-csharp/Chromosome.cs:152-164 | the ordering is reflexive, antisymmetric in sign and transitive |
| Chromosomes.GoldenOrdering | geneticalgorithm-csharp-tests/ChromosomeTest.cs:175-193 | the orderings the tests expect among the four literal genes |
| Chromosomes.Equals | geneticalgorithm-csharp/Chromosome.cs:169-176 | a chromosome equals exactly a boxed chromosome with the same gene and fitness; it never equals null or a non-chromosome |
| Chromosomes.EqualsIsGeneEquality | geneticalgorithm-csharp/Chromosome.cs:169-176 | for consistent chromosomes, equality is gene equality, reflexive and symmetric, and false on null and on other objects |
| Populations.Fittest | geneticalgorithm-csharp/Population.cs:168-176 | the tournament fold returns the first candidate or one of the challengers, and never a worse fitness than the first candidate's |
| Populations.TournamentWinner | geneticalgorithm-csharp/Population.cs:168-176 | the winner of a tournament is a member of the population |
| Populations.FittestIsFirstMinimum | geneticalgorithm-csharp/Population.cs:170-176 | the fold returns a candidate of least fitness; among equally fit candidates it returns the first drawn, because only a strictly lower `CompareTo` replaces it |
| Populations.TournamentWinnerIsFirstMinimum | geneticalgorithm-csharp/Population.cs:161-180 | a selected parent is a member of the population, minimal in fitness among its four candidates, and the earliest drawn on a tie |
| Populations.Population.SelectParents | geneticalgorithm-csharp/Population.cs:161-180 | the nested loops return the two tournament winners, both members of the current population |
| Populations.StepOutput | geneticalgorithm-csharp/Population.cs:63-104 | one iteration writes two chromosomes for a crossover with two free slots and one otherwise, all of the target's length |
| Populations.Offspring | geneticalgorithm-csharp/Population.cs:60-108 | the fill loop writes exactly the slots from `idx` to the end, each with a full-length chromosome |
| Populations.Iterations | geneticalgorithm-csharp/Population.cs:60-108 | the iterations from slot `idx` fill exactly the slots to the end |
| Populations.NextGeneration | geneticalgorithm-csharp/Population.cs:51-108 | the buffer has the population's length and starts with the old elite prefix unchanged |
| Populations.StepOutputMembers | geneticalgorithm-csharp/Population.cs:63-104 | every chromosome one iteration writes is consistent and full-length |
| Populations.OffspringMembers | geneticalgorithm-csharp/Population.cs:60-108 | every chromosome the fill loop writes is consistent and full-length |
| Populations.NextGenerationMembers | geneticalgorithm-csharp/Population.cs:51-108 | the whole buffer consists of consistent full-length chromosomes |
| Populations.MembersOfPermutation | geneticalgorithm-csharp/Population.cs:111 | sorting keeps every element a member |
| Populations.OffspringStep | geneticalgorithm-csharp/Population.cs:60-108 | the offspring from slot `idx` are what the next iteration writes, followed by the offspring of the remaining steps |
| Populations.NextGenerationKeepsElite | geneticalgorithm-csharp/Population.cs:55-56 | the old elite prefix is contained, as a multiset, in the next generation |
| Populations.NextGenerationKeepsBest | geneticalgorithm-csharp/Population.cs:55-111 | with at least one elite, the best fitness after the sort is no worse than the old best |
| Populations.SortedHeadIsFittest | geneticalgorithm-csharp/Population.cs:111 | the head of a sorted sequence is at least as fit as each of its elements |
| Populations.CopyStepDifferences | geneticalgorithm-csharp/Population.cs:96-103 | a copy step writes the old member at its slot, changed in exactly one position when the mutation coin comes up and unchanged otherwise |
| Populations.CrossStepConservesFitness | geneticalgorithm-csharp/Population.cs:66-90 | an unmutated crossover step with two free slots writes children whose fitnesses add up to those of the two selected parents |
| Populations.OffspringWithoutVariation | geneticalgorithm-csharp/Population.cs:60-108 | with no crossover and no mutation, the fill loop copies the old members slot by slot |
| Populations.NextGenerationWithoutVariation | geneticalgorithm-csharp/Population.cs:51-108 | with no crossover and no mutation, the next generation is the old population |
| Populations.Swap | geneticalgorithm-csharp/Population.cs:111 | exchanging two slots keeps the contents as a multiset |
| Populations.SortByFitness | geneticalgorithm-csharp/Population.cs:111 | the array ends up sorted ascending by fitness and is a permutation of its old contents |
| Populations.Insert | geneticalgorithm-csharp/Population.cs:111 | one insertion step extends the sorted prefix by one slot and keeps the contents |
| Populations.Population.constructor | geneticalgorithm-csharp/Population.cs:28-43 | the population has `size` consistent full-length members, sorted by fitness; it is a permutation of the generated chromosomes; the ratios are stored as given |
| Populations.Population.GetPopulation | geneticalgorithm-csharp/Population.cs:122-128 | a fresh array equal element by element to the population, so writing to it leaves the population alone |
| Populations.Population.Evolve | geneticalgorithm-csharp/Population.cs:48-115 | the new population is a fresh sorted array of the same length holding members. It is a permutation of `NextGeneration`, contains the old elite prefix, and with an elite its best fitness never increases |
| Populations.Population.Breed | geneticalgorithm-csharp/Population.cs:63-104 | one iteration's chromosomes are the first of the offspring still to be written; there are two for a crossover with two free slots and one otherwise |
| Populations.Population.Iterate | geneticalgorithm-csharp/Population.cs:62-107 | one iteration advances the index by 2 after a crossover and by 1 otherwise. It writes the slots it passes with the generation's chromosomes and leaves every other slot alone |
| Populations.Population.FillOffspring | geneticalgorithm-csharp/Population.cs:60-108 | the fill loop ends with the buffer equal to `NextGeneration`: every slot from the elite count on written once, in order, by the steps |

## Left out

- The static `Random` instances seeded from the clock (`Chromosome.cs:17`, `Population.cs:14`) are not modelled. Every draw they make is a parameter instead: gene draws, mutation draws, pivots, tournaments and coins.
- The `double` arithmetic is not modelled.
  - `eliteCount` is an integer parameter standing for `Math.Round(size * elitism)`.
  - Each `NextDouble() <= ratio` coin is a boolean inside a `Step`.
  - The ratios are stored as `real` constants that nothing computes with.
- `GetHashCode` depends on the .NET string hash, a foreign call, and is not modelled.
- The driver program (`Program.cs`) is console I/O and timing and is not part of this model.
- Array.Sort is replaced by an insertion sort. Only what Array.Sort promises is stated: sorted by fitness and a permutation. Its particular unstable order is not modelled.
- The probabilistic test assertion `counter < oldArr.Length` holds only with high probability, so it is not stated.
- Mutate: the requires asks for a drawn index inside the gene. On an empty gene `rnd.Next(0)` returns 0 and the source throws when it indexes; that throwing path is not modelled.
- Mate: the requires asks that the mate be at least as long as the receiver. With a shorter mate the source's `Array.Copy` throws; that throwing path is not modelled.
- Mutate and Mate require the receiver to be no longer than the target, because only such genes have a fitness. Every chromosome the source can construct meets this (see `Construct`).
- Fitness is an unbounded integer. The source's 32-bit `int` cannot overflow, since a gene has at most 13 codes below 0x10000.
- Population.constructor: `size > 0` and the ratio ranges are the requires the source documents for its callers.
- GetCrossover, GetElitism, GetMutation: these have no ensures. The ratios are `const` fields, so `Evolve` cannot change them and the constructor states their values.
- The fill loop of `Evolve` is split into `FillOffspring`, `Iterate` and `Breed`, and parent selection is `SelectParents`. Together they are the loop at `Population.cs:60-108`.
- `Challengers` lists a tournament's drawn challengers; the source draws them inside the loop.
