# Ecky CAD core, modelled and proved in Dafny

This project models the parts of Ecky whose correctness rests on an invariant rather than on a library call, and
proves that they keep it. Foreign geometry (OCCT, Manifold) appears only as abstract functions.

| file | what it models |
|---|---|
| `Geometry.dfy`, `Surface.dfy`, `Flux.dfy`, `HullStep.dfy`, `HullVolume.dfy`, `HullSeed.dfy`, `Hull.dfy`, `HullExact.dfy` | the incremental convex hull over integer points |
| `Scheduler.dfy`, `ScheduleRun.dfy`, `Plans.dfy`, `Meaning.dfy`, `Tasks.dfy`, `CacheKeys.dfy`, `PlanGraph.dfy`, `Soundness.dfy`, `Evaluate.dfy`, `Limits.dfy` | the command-graph evaluator `evaluate_plan`, its caches, its slot reader counts and its split four-input unions |
| `Clip.dfy`, `ClipBox.dfy` | clipping capture triangles to a box |
| `Resolver.dfy`, `Locks.dfy` | the Cairn exact-version resolver, its canonical lock and the validation of locks |
| `Octets.dfy`, `Decimals.dfy`, `Sha256.dfy`, `Identity.dfy`, `KnownAnswers.dfy`, `MeshCodec.dfy` | streaming SHA-256, execution identities, the binary part-mesh artifact |
| `Scanners.dfy` | the two S-expression scanners |
| `Welder.dfy` | the STL vertex welder |
| `BuildQueue.dfy` | the build admission queue |
| `CpuLeases.dfy`, `MeshMemory.dfy` | Boolean CPU leases, mesh parallelism, mesh memory leases and the part-mesh scheduler |
| `Options.dfy`, `Sorting.dfy` | what the others share: optional values, sorting by a total order, the lexicographic order |

`dafny verify dfyconfig.toml` checks everything.

## How the proofs are laid out

**Hull.** The loop carries a mesh that is closed and convex, a point strictly inside it (the centroid of the seed, on
a lattice four times finer), vertices that are different points, and edges that run through no vertex. The last two are
what makes the result hold for every input: two horizon edges that end at one vertex would have to start on one ray, so
one of them would run through a vertex. No assumption of general position is made. The mesh is never emptied because a
closed surface encloses the same volume from every point. `HullExact` shows that what the faces enclose is the convex
hull: a plane parting an enclosed point from the input would let all vertices be moved along their rays into one plane
without turning a face round, and then the volumes seen from the point would all be zero.

**Evaluator.** `Meaning.Means` is plain recursive evaluation of a part, without cache, groups or schedule.
`Scheduler` and `ScheduleRun` see commands only through the slots they read and write, and are proved for any `run`
and any relation between slots and values that `run` keeps; `Tasks` says exactly when the tasks of a plan, split unions
included, agree with plain evaluation; `PlanGraph` ties the scheduling problem back to the plan. `Soundness` instantiates
the relation with what a run keeps of every slot, which includes that all on the way to it has run as declared, so that a
finished run tells about commands whose values are long gone; `Evaluate` puts all together. The caller is held to what
the source's caches promise: a cached value is the value it stands for.

**Identity and codec.** Both are decided by formats that can be read back in one way only. The hash is proved equal to
the compression folded over the padded whole message; what it then says about inputs is stated up to a collision.
`KnownAnswers` computes the digest of "abc" round by round and writes one identity stream out, so that the constants, the
order of the fields and the printed form are what the standard and the runner have.

**State machines.** The queue, the leases and the memory budget are classes with a ghost history or ledger. Each
operation states its whole new state, and the lemmas about the history hold after every run.

## Where the code and its description differ

- The comment at `src-tauri/native/direct_occt_runner.cpp:4210` speaks of the two points farthest apart; the code takes
  the first point and the one farthest from it. The model follows the code, and the degeneracy results are about it.
- A configured cache is meant to change how fast a plan is evaluated, not whether. Yet `evaluate_plan` then names every
  part first, and refuses what it cannot name, although without a cache it evaluates the same plan: a reference to a slot
  that no earlier command writes (`src-tauri/native/direct_occt_runner.cpp:6745-6756`), and a command with too few
  arguments that writes the slot of a grouped union, in a second part of the same name or a second time in its part (6852-6853;
  parsing looks at the first such part and command only). `CacheKeys.CheckKeys` gives the exact condition,
  `Limits.OutOfOrderNeedsNoCache` and `Limits.TwinNeedsNoCache` give plans. The mesh stage names the parts again, with and
  without a cache (9149): a plan out of order is refused either way, only later, after it has been evaluated
  (`Limits.OutOfOrderRuns`).
- A union is split into pair groups whatever its arguments are. An input that is no reference is read as slot 0, which
  `execution_refs` does not report, so that nothing keeps it alive; and the split union can have a value where direct
  evaluation refuses a union with such an input (lines 1967-1980 and 6378-6401) or with keywords (6003-6008).
  `Tasks.SplitReadsReported` states exactly when the reads stay within the report, `Tasks.TaskValueIsMeaning` exactly
  when a task agrees with plain evaluation, and `Limits.LiteralReadsSlotZero` gives a plan where neither holds.
- A pair group whose inputs are not in the representation it declares is refused, although the union of the four has a
  value: `Limits.MeshInAnalyticGroup`.
- `Evaluate.EvaluatePlan` therefore agrees with plain evaluation under exact conditions, both about the split unions that
  the exports need and both empty without a configured cache. `Soundness.NeededProper`, which can be read off plan and
  cache: they take references only and no keywords. The records of a successful run are right if and only if this holds.
  `Soundness.NeededDeclared`: the groups to be recomputed declare the representation of their inputs. Records that are
  right come out if and only if this holds and plain evaluation has admissible values. If `NeededProper` fails, nothing
  is said about whether the run ends in records: a union may find slot 0 or find it gone already.
- Queue numbers saturate at 2^64 - 1. From then on numbers no longer order submissions, and the results about histories
  claim nothing.

## Model

| member | source | states |
|---|---|---|
| Geometry.OrientIsHeight | src-tauri/native/direct_occt_runner.cpp:4193-4200 | The signed volume is the height over the face along its normal by the right-hand rule, in coordinates. |
| Geometry.OrientOutward | src-tauri/native/direct_occt_runner.cpp:4193-4200 | A step along the normal leads to the positive side. |
| Geometry.OrientPluecker | src-tauri/native/direct_occt_runner.cpp:4195-4200 | Volumes along one edge obey the Grassmann-Pluecker relation, the identity behind every step of the hull. |
| Geometry.ConeSupports | src-tauri/native/direct_occt_runner.cpp:4311-4318 | A cone face over a horizon edge keeps every enclosed point enclosed and the inner point strictly inside, from the two faces at the edge alone. |
| Geometry.Pinch | src-tauri/native/direct_occt_runner.cpp:4311-4318 | Two horizon edges with one head can only start on one ray from it. |
| Surface.HorizonBalanced | src-tauri/native/direct_occt_runner.cpp:4290-4318 | At each vertex horizon edges arrive exactly when they leave, and then one of each. |
| Surface.RestitchClosed | src-tauri/native/direct_occt_runner.cpp:4304-4319 | Cutting faces out of a closed oriented surface and coning their boundary to a new vertex leaves each directed edge once, with its reverse once. |
| HullVolume.VolumeIndependent | src-tauri/native/direct_occt_runner.cpp:4193-4200 | The volume a closed mesh encloses is the same from whatever point the signed volumes are taken. |
| HullVolume.SomeFaceHidden | src-tauri/native/direct_occt_runner.cpp:4276-4319 | No point sees every face, so a fold never leaves an empty mesh. |
| HullStep.ConeFaceSupports | src-tauri/native/direct_occt_runner.cpp:4311-4318 | Every new face encloses all points looked at so far, those skipped as interior included. |
| HullStep.HorizonSimple | src-tauri/native/direct_occt_runner.cpp:4290-4318 | No two horizon edges end at one vertex, whatever points coincide or are coplanar. |
| HullStep.FoldClosed | src-tauri/native/direct_occt_runner.cpp:4290-4319 | The folded mesh is a closed oriented surface. |
| HullStep.FoldStep | src-tauri/native/direct_occt_runner.cpp:4276-4320 | Folding in a point that sees a face keeps the whole loop invariant: closed, convex, inner point strictly inside, vertices apart and off the edges. |
| HullStep.SkipStep | src-tauri/native/direct_occt_runner.cpp:4286-4288 | A point that sees no face is enclosed from then on. |
| HullSeed.LineCollinear | src-tauri/native/direct_occt_runner.cpp:4225-4239 | If no point is off the line through the first point and its farthest one, all triples of points are collinear. |
| HullSeed.PlaneCoplanar | src-tauri/native/direct_occt_runner.cpp:4241-4253 | If no point is off the plane of the three chosen points, all quadruples are coplanar. |
| HullSeed.SeedClosed | src-tauri/native/direct_occt_runner.cpp:4255-4267 | The four oriented seed faces are a closed surface without a repeated face. |
| HullSeed.SeedConvex | src-tauri/native/direct_occt_runner.cpp:4255-4270 | The seed tetrahedron starts the loop with its invariant, its centroid strictly inside. |
| Hull.FarthestFromFirst | src-tauri/native/direct_occt_runner.cpp:4210-4223 | The first search fails exactly when all points are one. |
| Hull.FarthestFromLine | src-tauri/native/direct_occt_runner.cpp:4225-4239 | The second search fails exactly when all points are collinear. |
| Hull.FarthestFromPlane | src-tauri/native/direct_occt_runner.cpp:4241-4253 | The third search fails exactly when all points are coplanar. |
| Hull.MarkVisible | src-tauri/native/direct_occt_runner.cpp:4276-4285 | The marks are the faces that the point sees, and the flag says whether there are any. |
| Hull.CountEdges | src-tauri/native/direct_occt_runner.cpp:4290-4303 | The counted edges are the directed edges of the marked faces. |
| Hull.ConeTo | src-tauri/native/direct_occt_runner.cpp:4311-4318 | The faces pushed are those kept and one cone face per counted edge whose reverse was not counted, without repetition. |
| Hull.FoldIn | src-tauri/native/direct_occt_runner.cpp:4276-4320 | One pass of the loop body computes the fold and keeps its invariant. |
| Hull.FinishedIsHull | src-tauri/native/direct_occt_runner.cpp:4272-4323 | Once every point has been looked at, the invariant is the promise of the hull. |
| Hull.HullLooksOut | src-tauri/native/direct_occt_runner.cpp:4255-4262 | By coordinates, along the normal of each face no input point is farther out than the face and some point is farther in. |
| Hull.IncrementalHull | src-tauri/native/direct_occt_runner.cpp:4206-4324 | For every list of integer points: the three errors are reported exactly for one distinct point, collinear and coplanar input; otherwise the faces are a non-empty closed oriented surface whose normals by the right-hand rule point outward, with no input point strictly outside any face and one strictly inside each. |
| HullExact.NeverParted | src-tauri/native/direct_occt_runner.cpp:4193-4200 | No plane parts a point on the inner side of every face of a closed surface from the input points. |
| HullExact.HullExactly | src-tauri/native/direct_occt_runner.cpp:4206-4324 | A rational point is on the inner side of every face of a hull if and only if it is in the convex hull of the input: every half-space that contains all input points contains it. |
| Scheduler.RequiredNodes | src-tauri/native/direct_occt_runner.cpp:7556-7578 | The backward walk marks exactly the nodes from which an exported slot can be reached through uncached reads. |
| Scheduler.Wire | src-tauri/native/direct_occt_runner.cpp:7579-7596 | Dependents and unmet counts agree with the reads of required nodes, repetitions counted. |
| Scheduler.CountReaders | src-tauri/native/direct_occt_runner.cpp:7598-7614 | A slot's count is the number of reads by required nodes plus the bindings that export it. |
| Scheduler.OutstandingAfter | src-tauri/native/direct_occt_runner.cpp:7837-7852 | Completing a node takes exactly its own reads out of what is still outstanding. |
| ScheduleRun.PickBatch | src-tauri/native/direct_occt_runner.cpp:7635-7647 | A batch is the least ready node alone if it is exclusive, else the least safe ready nodes, never more than the budget. |
| ScheduleRun.InputsLive | src-tauri/native/direct_occt_runner.cpp:7658-7662 | A launched command finds every slot it reads present and holding its value: nothing it needs is missing or released. |
| ScheduleRun.ReleaseUnused | src-tauri/native/direct_occt_runner.cpp:7616-7628 | Before the first batch exactly the cached slots that are read or exported stay. |
| ScheduleRun.ConsumeInputs | src-tauri/native/direct_occt_runner.cpp:7837-7851 | The consumer count never underflows, and a slot is dropped exactly after its last reader unless it is a root. |
| ScheduleRun.Notify | src-tauri/native/direct_occt_runner.cpp:7853-7855 | A dependent becomes ready exactly when its last unmet dependency completes. |
| ScheduleRun.Complete | src-tauri/native/direct_occt_runner.cpp:7830-7855 | Completing one launched node keeps the invariant of the loop. |
| ScheduleRun.Launch | src-tauri/native/direct_occt_runner.cpp:7658-7809 | Every command of a batch runs on the slots as they are at launch, with all its inputs right. |
| ScheduleRun.RunBatch | src-tauri/native/direct_occt_runner.cpp:7656-7856 | A batch completes in order and keeps the invariant, or a command failed on right inputs. |
| ScheduleRun.OrderedMeansAcyclic | src-tauri/native/direct_occt_runner.cpp:7858-7858 | If all required commands ran in an order that respects their reads, they have no cycle. |
| ScheduleRun.Stopped | src-tauri/native/direct_occt_runner.cpp:7858-7858 | With nothing ready, either all required commands ran or they contain a cycle. |
| ScheduleRun.Schedule | src-tauri/native/direct_occt_runner.cpp:7556-7858 | The loop terminates; it runs exactly the required commands, each once and after its producers, and leaves exactly the exported slots; a cycle is reported only if there is one, and a finished run shows that there is none. |
| Plans.ArgRefsAt | src-tauri/native/direct_occt_runner.cpp:6583-6591 | An argument mentions exactly the slots that references in it name, however deep in lists they stand. |
| Plans.AllRefsAt | src-tauri/native/direct_occt_runner.cpp:6593-6600 | A command mentions exactly the slots that references in its arguments and keyword values name. |
| Plans.CheckGroups | src-tauri/native/direct_occt_runner.cpp:1010-1053 | Parsing accepts the pair groups of a plan exactly when each is supported and each union has its two. |
| Plans.AcceptedSplits | src-tauri/native/direct_occt_runner.cpp:1030-1042 | Accepted groups of a union partition the inputs 0 to 3 into two pairs. |
| Meaning.MeansUnique | src-tauri/native/direct_occt_runner.cpp:7771-7786 | Plain recursive evaluation gives a slot at most one value. |
| Meaning.MeansByInputs | src-tauri/native/direct_occt_runner.cpp:7771-7786 | If the slots a command mentions have values, its own slot has exactly the value the command computes from them. |
| Meaning.SplitJoins | src-tauri/native/direct_occt_runner.cpp:7684-7770 | Joining any two pairs that split four operands joins all four. |
| Tasks.ExecutionRefsAt | src-tauri/native/direct_occt_runner.cpp:7488-7515 | The reported slots are exactly those that references name in arguments that no cached group stands in for and in keyword values. |
| Tasks.SplitReadsReported | src-tauri/native/direct_occt_runner.cpp:7488-7515 | For a union computed through its pair groups: every slot it reads is among the reported ones if and only if every input not covered by a cached group is a reference, or slot 0 is reported anyway. |
| Tasks.SplitReadsOnly | src-tauri/native/direct_occt_runner.cpp:7684-7770 | The value of a split union is the same on any two slot maps that agree at the positions no cached group covers: those slots are all it reads. |
| Tasks.ReportedReadsSuffice | src-tauri/native/direct_occt_runner.cpp:7488-7515 | Where the reads are reported, the value of any task depends on the reported slots only, so nothing it needs is missing or released. |
| Tasks.UnreportedRead | src-tauri/native/direct_occt_runner.cpp:7684-7770 | Where they are not, slot 0 is read although nothing reports it: a split union that has a value has none once slot 0 alone is taken away. |
| Tasks.SplitRunsExactly | src-tauri/native/direct_occt_runner.cpp:7684-7770 | A split union has a value exactly if each group that is not cached finds its two inputs, both geometry, in the representation it declares, whatever its arguments are. |
| Tasks.SplitValue | src-tauri/native/direct_occt_runner.cpp:7684-7770 | With no, one or two cached groups, a split union that runs is the join of its four operands. |
| Tasks.ProperSplit | src-tauri/native/direct_occt_runner.cpp:7684-7770 | For a split union of references: what it computes is what its slot means; its slot means something exactly if it reads no frame, and it computes that exactly if its groups run. |
| Tasks.ImproperSplit | src-tauri/native/direct_occt_runner.cpp:7684-7770 | For a split union with an input that is no reference, or with keywords: plain evaluation refuses it, yet it has a value exactly if its groups run. |
| Tasks.TaskValueIsMeaning | src-tauri/native/direct_occt_runner.cpp:7663-7799 | On right inputs a task and plain evaluation agree, on the value and on having one, if and only if the task is direct, or a split union of references whose groups run unless it reads a frame, or another split union whose groups do not run. |
| CacheKeys.PartCacheKey | src-tauri/native/direct_occt_runner.cpp:6814-6868 | A part gets a cache key exactly if each command mentions slots of earlier commands only and can be put into a key itself, and some command writes the root. |
| CacheKeys.PairKeys | src-tauri/native/direct_occt_runner.cpp:6840-6858 | The pair groups of a part have keys exactly if every command that writes the slot of a group has all the arguments that the group names. |
| CacheKeys.UniqueArePaired | src-tauri/native/direct_occt_runner.cpp:1010-1053 | Where no two parts share a name and no two commands of a part a slot, the checks of parsing already give the pair groups their keys. |
| CacheKeys.CheckKeys | src-tauri/native/direct_occt_runner.cpp:7396-7486 | A configured cache refuses a plan exactly if some part has no key, or, under the adaptive policy, some command writes the slot of a pair group of its part and has fewer arguments than the group names, or a part found in the cache has a binding that no command writes. |
| PlanGraph.CollectNodes | src-tauri/native/direct_occt_runner.cpp:7517-7536 | Nodes are exactly the commands that no cached part or slot supplies; a slot written twice is refused. |
| PlanGraph.BuildProblem | src-tauri/native/direct_occt_runner.cpp:7537-7551 | A read without producer and without cached slot is refused, exactly then. |
| PlanGraph.SameCycles | src-tauri/native/direct_occt_runner.cpp:7556-7578 | The scheduling problem has a cycle among its required nodes if and only if the commands needed for the exports read each other in a circle. |
| PlanGraph.InOrderIsAcyclic | src-tauri/native/direct_occt_runner.cpp:7396-7486 | A plan whose commands mention earlier commands only has no cycle. |
| Soundness.RanFine | src-tauri/native/direct_occt_runner.cpp:7663-7799 | A needed command that has a value is no union stuck at an unwritten slot 0; and if the split unions that matter are proper, its value is its meaning and its groups are declared as their inputs are. |
| Soundness.MeaningfulIsProper | src-tauri/native/direct_occt_runner.cpp:1967-1980 | If plain evaluation gives every root and binding a value, every split union that the exports need is one of references without keywords. |
| Soundness.TasksRunRight | src-tauri/native/direct_occt_runner.cpp:7658-7809 | The tasks of a plan meet what the scheduler asks of its commands, for what a run keeps of its slots: all that was computed on the way to a slot that the exports need has run as declared, and the slot holds its meaning if the split unions that matter are proper. |
| Soundness.MeaningfulFinishes | src-tauri/native/direct_occt_runner.cpp:7634-7858 | If plain evaluation gives every root and binding a value, and the split unions that the exports need are declared as their inputs are, these are all proper and neither a cycle nor a failing command stops the run. |
| Soundness.FaultMeans | src-tauri/native/direct_occt_runner.cpp:7663-7799 | Where the split unions that matter are proper, a command fails on what it reports only if its slot has no plain value, or if it is a split union with a group not declared as its inputs are. |
| Soundness.AllFine | src-tauri/native/direct_occt_runner.cpp:7634-7858 | Slots that a run has left with every export there show that no needed union was stuck, and that the needed ones are declared if they are proper. |
| Evaluate.CollectParts | src-tauri/native/direct_occt_runner.cpp:7860-7919 | Records come in plan order, each taken from the slots; collecting succeeds exactly if every root is there, is no frame and has the representation of its part, and every binding is there and is a shape; an error names the first part that fails and why. |
| Evaluate.KeyedIsAcyclic | src-tauri/native/direct_occt_runner.cpp:7396-7551 | With a configured cache, a plan that gets its keys and writes no slot twice has neither a cycle nor an unknown slot. |
| Evaluate.ReadyRecords | src-tauri/native/direct_occt_runner.cpp:7860-7919 | The records collected hold the plain values if and only if the split unions that the exports need are proper. |
| Evaluate.EvaluatePlan | src-tauri/native/direct_occt_runner.cpp:7383-7919 | For every setting of the caches and the worker budget: the refusals for no parts, no cache key, a doubly written slot and an unknown slot are exact; a cycle is reported only if the needed commands have one and no cache is configured; a command error means a needed command without value on what it reports, and a collecting error names what the first failing part lacks. A run that ends has run exactly the needed commands, each once and after those that feed it, and leaves exactly the written roots and bindings, from which the records are taken. The records are the values of plain evaluation, without cache and schedule, if and only if every split union that the exports need is proper; and a plan that is not refused ends in such records if and only if plain evaluation gives every root and binding an admissible value and the needed split unions are declared as their inputs are. |
| Limits.OutOfOrderNeedsNoCache | src-tauri/native/direct_occt_runner.cpp:6745-6756 | A command written before the one it reads: an accepted, acyclic plan with a plain value, which a configured cache refuses. |
| Limits.OutOfOrderRuns | src-tauri/native/direct_occt_runner.cpp:9144-9150 | evaluate_plan refuses that plan with a cache and finishes it without; then build_part_meshes refuses it. |
| Limits.TwinNeedsNoCache | src-tauri/native/direct_occt_runner.cpp:7407-7420 | An accepted plan whose parts all have keys and plain values, with a second part of the same name whose box of three arguments writes the slot of a grouped union: a configured cache refuses it. |
| Limits.TwinRuns | src-tauri/native/direct_occt_runner.cpp:7374-7919 | That plan finishes without a cache and fails with one. |
| Limits.LiteralReadsSlotZero | src-tauri/native/direct_occt_runner.cpp:7684-7770 | A plan that is not refused, with a needed split union of a literal and three references: once its sources have run the union has a value, loses it with slot 0 gone, does not report slot 0, and has no plain value. |
| Limits.MeshInAnalyticGroup | src-tauri/native/direct_occt_runner.cpp:7684-7770 | A needed split union of references with a mesh in an analytic group: it has a plain value and the task has none, because the group is not declared as its inputs are. |
| Limits.PlateRuns | src-tauri/src/ecky_cad_host/direct_occt_runner.rs:5853-5888 | A profile whose hole is named inside a list runs all four commands, the circle of the hole included, and the record is the extrusion of the profile of both circles. |
| Clip.ClipPolygon | src-tauri/src/capture_mesh_crop.rs:89-128 | The loop computes the clipped polygon of the lemmas below. |
| Clip.CutOnLimit | src-tauri/src/capture_mesh_crop.rs:110-120 | An edge that changes sides is cut once, at a point of the edge that lies on the limit. |
| Clip.ClippedArea | src-tauri/src/capture_mesh_crop.rs:89-128 | The area of the clipped polygon is what the kept parts of the edges sweep, seen from the limit. |
| Clip.ClipConservesArea | src-tauri/src/capture_mesh_crop.rs:89-128 | The two sides of an axis limit add up to the signed area of any closed polygon, in each projection that contains the axis. |
| ClipBox.ClippedKeeps | src-tauri/src/capture_mesh_crop.rs:89-128 | A cut leaves points of its own side only and keeps every convex property of the vertices, so earlier bounds survive later cuts. |
| ClipBox.FanConservesArea | src-tauri/src/capture_mesh_crop.rs:37-42 | Fanning a polygon into triangles keeps its signed area in every projection. |
| ClipBox.PlanarConserves | src-tauri/src/capture_mesh_crop.rs:89-128 | For a plane polygon not perpendicular to the axis the two sides add up in the remaining projection too. |
| ClipBox.CropStaysInside | src-tauri/src/capture_mesh_crop.rs:19-50 | Every vertex of every cropped triangle lies in the box and is a convex combination of one input triangle. |
| ClipBox.InsideUnchanged | src-tauri/src/capture_mesh_crop.rs:19-50 | A triangle wholly inside the box comes out unchanged and alone if it is above the area cutoff, and not at all otherwise. |
| ClipBox.BigEnoughByAreas | src-tauri/src/capture_mesh_crop.rs:130-135 | A triangle is above the cutoff exactly if twice the areas of its three projections, squared and added, exceed four times the square of 1e-12. |
| ClipBox.ClipTrianglesToBox | src-tauri/src/capture_mesh_crop.rs:19-50 | Bounds are refused exactly when some minimum is not below its maximum, naming the first such axis; an empty result is an error; otherwise the cropped triangles come in order. |
| Resolver.ClosureUnique | src-tauri/src/cairn.rs:336-358 | There is only one closure, so the result does not depend on the traversal order. |
| Resolver.WalkVisit | src-tauri/src/cairn.rs:353-355 | Resolving a new package keeps the worklist invariant. |
| Resolver.Close | src-tauri/src/cairn.rs:338-356 | The loop ends on cyclic and unbounded graphs too; it succeeds exactly if no package is reachable in two versions, no reachable coordinate is unavailable and at most 128 packages are reachable; the result is the exact closure and an error names a fault that is there. |
| Resolver.Visit | src-tauri/src/contracts/cairn.rs:114-153 | The memoized search accepts exactly the dependencies that the plain recursion bounded at depth 16 accepts, and returns their height. |
| Resolver.FitsByWalks | src-tauri/src/contracts/cairn.rs:114-153 | The bounded recursion accepts exactly the releases from which no walk has more steps than the bound and every dependency on the way is there in the version it names. |
| Locks.CheckDependencies | src-tauri/src/contracts/cairn.rs:34-52 | At most 64 dependencies, well-formed names, no package twice. |
| Locks.RootsFitByWalks | src-tauri/src/contracts/cairn.rs:114-153 | The visits accept exactly the roots that are there in the version they name and from which no walk has more than 16 steps or misses a dependency. |
| Locks.Validate | src-tauri/src/contracts/cairn.rs:93-161 | validate accepts, of all locks, exactly those with one well-formed release per package, every root and dependency there in the version asked for, no walk of more than 16 steps, and no release that the roots do not lead to. |
| Locks.LockRises | src-tauri/src/contracts/cairn.rs:70-92 | In the lock of a closure roots, releases and dependencies rise by package and then version, two names being ordered by the first character that differs. |
| Locks.Resolve | src-tauri/src/cairn.rs:336-374 | resolve succeeds exactly if the roots have a lockable closure; the lock it returns is valid and lists exactly the roots and that closure, with roots, releases and the dependencies of each release rising by the first character that differs. |
| Locks.LockCanonical | src-tauri/src/contracts/cairn.rs:70-92 | Roots given in any order have one lock. |
| Locks.ValidExactly | src-tauri/src/contracts/cairn.rs:93-161 | The lock of a closure passes validation exactly if the closure can be locked. |
| Locks.ConflictNeverLocks | src-tauri/src/cairn.rs:341-349 | Two reachable versions of one package: resolve never succeeds. |
| Locks.CycleNeverLocks | src-tauri/src/contracts/cairn.rs:141-153 | A package that depends on itself, however indirectly, is never locked. |
| Sha256.FoldAppend | src-tauri/native/execution_identity.hpp:65-73 | One more block behind whole blocks is one more compression. |
| Sha256.ZeroCountLeast | src-tauri/native/execution_identity.hpp:52-52 | The padding zeros are the fewest that leave eight bytes in the last block (section 5.1.1 of FIPS 180-4). |
| Sha256.PadEnds | src-tauri/native/execution_identity.hpp:47-54 | The padded message ends in its length in bits modulo 2^64, highest byte first (section 5.1.1 of FIPS 180-4). |
| Sha256.Stream.Schedule | src-tauri/native/execution_identity.hpp:84-90 | The word loop computes the message schedule of section 6.2.2 of FIPS 180-4. |
| Sha256.Stream.Transform | src-tauri/native/execution_identity.hpp:74-102 | The sixty-four rounds are the compression function of section 6.2.2 of FIPS 180-4. |
| Sha256.Stream.Update | src-tauri/native/execution_identity.hpp:65-73 | However a message is split over calls, state and buffer are those of the whole message. |
| Sha256.Stream.PadWithZeros | src-tauri/native/execution_identity.hpp:52-52 | The padding loop ends, with exactly the zeros of the standard. |
| Sha256.Stream.Finish | src-tauri/native/execution_identity.hpp:47-59 | The digest is the compression folded over the blocks of the padded message. |
| KnownAnswers.DigestOfAbc | src-tauri/native/execution_identity_test.cpp:12-15 | The digest of "abc" is the example of FIPS 180-4. |
| KnownAnswers.PrintedAbc | src-tauri/native/execution_identity_test.cpp:12-15 | Printed, it is "sha256:" and the 64 characters that the repository expects. |
| Decimals.DecimalReads | src-tauri/native/execution_identity.hpp:109-111 | A length is printed in digits that stand for it, without leading zeros. |
| Identity.FieldCancel | src-tauri/native/execution_identity.hpp:109-111 | A field can be taken off the front of a stream in one way only. |
| Identity.FieldsCancel | src-tauri/native/execution_identity.hpp:112-115 | So can a counted list of fields. |
| Sorting.SortedUnique | src-tauri/native/execution_identity.hpp:132-135 | One multiset of fields has one sorted list, whatever sorts it. |
| Identity.NormalizedSame | src-tauri/native/execution_identity.hpp:132-135 | Normalized fields are equal exactly if the fields are equal as multisets. |
| Identity.HexInjective | src-tauri/native/execution_identity.hpp:55-58 | The printed digest determines the registers. |
| Identity.HashedUnique | src-tauri/native/execution_identity.hpp:137-151 | Two inputs give one stream exactly if scalars, arguments, dependencies and import digests agree in order, and keywords and selectors as multisets. |
| Identity.IdentityFaithful | src-tauri/native/execution_identity.hpp:137-151 | Inputs with one identity agree in all of that and in their imports, or a SHA-256 collision is at hand. |
| Identity.IdentityStable | src-tauri/native/execution_identity.hpp:137-151 | Reordering keywords or selectors does not change the identity. |
| Identity.AppendFields | src-tauri/native/execution_identity.hpp:112-115 | The hashed bytes grow by the framed list. |
| Identity.ExecutionIdentity | src-tauri/native/execution_identity.hpp:137-151 | The streaming computation gives the printed digest of the whole stream. |
| KnownAnswers.ExampleStream | src-tauri/native/execution_identity.hpp:109-151 | The hashed stream of an example written out: every field as length, colon, value and semicolon, the scalars in their order, keywords and selectors sorted, arguments and dependencies as given, counts before lists, and the digest of the import. |
| MeshCodec.TakeU64 | src-tauri/native/part_mesh.hpp:212-219 | Eight bytes are read exactly if eight are left, lowest first. |
| MeshCodec.AppendU64 | src-tauri/native/part_mesh.hpp:208-210 | The word is appended lowest byte first. |
| MeshCodec.NumberOfEight | src-tauri/native/part_mesh.hpp:208-219 | The eight bytes of a word count 1, 256, 256^2 and so on, the first one lowest. |
| MeshCodec.FormatInjective | src-tauri/native/part_mesh.hpp:235-248 | Two meshes with one artifact are one mesh. |
| MeshCodec.PrefixFree | src-tauri/native/part_mesh.hpp:250-274 | No artifact goes on where another one ends. |
| MeshCodec.WordAt | src-tauri/native/part_mesh.hpp:240-274 | Coordinate i of corner j of triangle k, all from 0, is the word 72k + 24j + 8i bytes behind the triangle count. |
| MeshCodec.Encode | src-tauri/native/part_mesh.hpp:235-248 | Encoding writes the format. |
| MeshCodec.Decode | src-tauri/native/part_mesh.hpp:250-274 | Decoding accepts exactly the artifacts of meshes and returns the mesh whose encoding it was given; the schema error means a missing magic, the trailing-bytes error exactly an artifact followed by something, and each other error which length does not fit. |
| MeshCodec.RoundTrip | src-tauri/native/part_mesh.hpp:235-274 | decode(encode(m)) is m for every mesh. |
| Scanners.StringSkipped | scripts/worm_farm_sources.ts:10-21 | Nothing counts in a string. |
| Scanners.CommentSkipped | scripts/worm_farm_sources.ts:10-21 | Nothing counts in a comment, which ends with its line. |
| Scanners.CodeCounts | scripts/worm_farm_sources.ts:10-21 | Outside of strings and comments parentheses count, and nothing else does. |
| Scanners.CollectedForms | scripts/worm_farm_sources.ts:6-23 | Everything collected opens with its first character, closes with its last and never in between. |
| Scanners.JoinedForms | scripts/worm_farm_sources.ts:27-27 | Any forms joined by blank lines are found again, each as it was and in order. |
| Scanners.SourceForms | scripts/worm_farm_sources.ts:6-23 | A source is accepted exactly if it is balanced; too many closing parentheses and too few are told apart. |
| Scanners.Rescan | scripts/worm_farm_sources.ts:6-27 | The forms of a source joined by blank lines are an accepted source with the same forms. |
| Scanners.ComponentsKept | scripts/worm_farm_sources.ts:27-27 | Exactly the forms that begin with "(define-component " are kept, in their order. |
| Scanners.DefinitionsRescan | scripts/worm_farm_sources.ts:27-27 | The extracted component definitions are an accepted source that holds the components only and extracts to itself. |
| Scanners.ScannersAgree | src-tauri/src/cad_transpile.rs:526-558 | On text that begins with "(model" both scanners close at the same place, if at all. |
| Scanners.CloseFirst | src-tauri/src/cad_transpile.rs:534-557 | The flag scanner returns the text up to where its first form closes, exactly if it closes. |
| Scanners.ExtractModel | src-tauri/src/cad_transpile.rs:526-558 | The result is the form that the first "(model" of a reply opens, wherever it stands. |
| Welder.KeyInjective | src-tauri/native/direct_occt_runner.cpp:8957-8959 | Different grid cells have different keys. |
| Welder.CellHolds | src-tauri/native/direct_occt_runner.cpp:8953-8955 | Cell n holds the coordinates from n to n + 1 tolerances. |
| Welder.NearCells | src-tauri/native/direct_occt_runner.cpp:8925-8930 | Points within the tolerance lie in the same or in touching cells. |
| Welder.VertexWelder.Search | src-tauri/native/direct_occt_runner.cpp:8928-8943 | The 27 cells yield a point within the tolerance exactly when a scan of all stored points would. |
| Welder.VertexWelder.Weld | src-tauri/native/direct_occt_runner.cpp:8924-8950 | The result is the first stored point within the tolerance in the order in which the cells are scanned; the point itself is stored exactly when there was none; stored points stay farther apart than the tolerance. |
| Welder.RepresentativeStays | src-tauri/native/direct_occt_runner.cpp:8924-8950 | A stored point can only be welded to itself. |
| Welder.WeldTwice | src-tauri/native/direct_occt_runner.cpp:8924-8950 | Welding welded vertices again, with a new welder, changes none of them. |
| Builds.SubmissionStep | src-tauri/src/build_queue.rs:105-141 | A submission keeps queue and history in step. |
| Builds.GrantStep | src-tauri/src/build_queue.rs:145-158 | A grant keeps queue and history in step. |
| Builds.RemovalStep | src-tauri/src/build_queue.rs:181-199 | A removal keeps queue and history in step. |
| Builds.AdvancesOn | src-tauri/src/build_queue.rs:105-199 | Over any stretch of a run a request that is finished, superseded or removed stays so, and a running one can only finish. |
| Builds.OnePlace | src-tauri/src/build_queue.rs:99-102 | A request is pending or running in its history exactly where the queue holds it, so it is in one place. |
| Builds.OneRunning | src-tauri/src/build_queue.rs:1-6 | A target owns at most one running build. |
| Builds.FirstInFirstOut | src-tauri/src/build_queue.rs:143-158 | When a controller has been granted, no controller of the key submitted earlier still waits or is granted later. |
| Builds.NextIsFair | src-tauri/src/build_queue.rs:151-157 | A grant is the oldest controller, else the newest interactive request ever submitted for the key, else nothing waits. |
| Builds.PublishableUnlessNewer | src-tauri/src/build_queue.rs:203-215 | The running build may publish unless an interactive request submitted after it waits. |
| Builds.InteractivePublishes | src-tauri/src/build_queue.rs:203-215 | A running interactive build may publish exactly when no interactive request waits. |
| Builds.BuildQueue.Submit | src-tauri/src/build_queue.rs:105-141 | Numbers count submissions below 2^64; a waiting interactive request is superseded exactly by an interactive one, and handed back. |
| Builds.BuildQueue.StartNext | src-tauri/src/build_queue.rs:145-158 | A busy or unknown key gets nothing; an idle one gets its next request, fairly. |
| Builds.BuildQueue.Finish | src-tauri/src/build_queue.rs:161-178 | Only the running request can be finished, and the next one is granted in the same step. |
| Builds.BuildQueue.RemovePending | src-tauri/src/build_queue.rs:181-199 | Exactly the waiting interactive request of that name, or else all waiting controllers of that name, go; running work stays. |
| Builds.BuildQueue.PublicationAllowed | src-tauri/src/build_queue.rs:203-215 | Only the running request publishes; if it is interactive, exactly when no interactive request waits. |
| CpuLeases.PromisedIsWidest | src-tauri/native/direct_occt_runner.cpp:413-426 | Under the adaptive policy a node is promised the widest lease, up to five units, that all outer nodes can hold at once within the budget. |
| CpuLeases.WidthIsWidest | src-tauri/native/direct_occt_runner.cpp:413-426 | A node gets the widest lease within the promise for which units are left. |
| CpuLeases.PromiseKept | src-tauri/native/direct_occt_runner.cpp:411-433 | While each node of the batch holds at most one lease, the next one is as wide as the fair share allows, whatever the other nodes hold. |
| CpuLeases.EveryRunFits | src-tauri/native/direct_occt_runner.cpp:407-472 | At every moment of every run outer nodes, leases and the recorded peak stay within the worker budget. |
| CpuLeases.ExecutionContext.Lease | src-tauri/native/direct_occt_runner.cpp:409-459 | The check against the budget never fails, whoever asks; with one lease a node and under the adaptive policy the width is five units, or one more for each outer node would exceed the budget. |
| CpuLeases.ExecutionContext.EndLease | src-tauri/native/direct_occt_runner.cpp:461-464 | A lease gives back what it took. |
| CpuLeases.ConfigureMeshParallelism | src-tauri/native/direct_occt_runner.cpp:6675-6703 | Mesh callers and pool workers beside them use the whole budget and no more, and the launcher share is the largest that all callers can use at once. |
| MeshMemory.MemoryBudget.TryReserve | src-tauri/native/part_mesh.hpp:87-92 | A reservation is refused exactly when it does not fit; reserved memory never exceeds the limit. |
| MeshMemory.Lease.TakeOver | src-tauri/native/part_mesh.hpp:58-61 | A move hands the reservation on, its size and its place unchanged; the old owner owns nothing. |
| MeshMemory.Lease.Release | src-tauri/native/part_mesh.hpp:75-80 | A lease gives its reservation back once. |
| MeshMemory.Lease.Assign | src-tauri/native/part_mesh.hpp:62-71 | Assignment by move strikes the own reservation out, hands the other one over with its size, so that it can be given back, and does nothing to itself. |
| MeshMemory.ConfiguredLimit | src-tauri/native/direct_occt_runner.cpp:8967-8982 | A configured limit always admits one reservation. |
| MeshMemory.ProgressFails | src-tauri/native/direct_occt_runner.cpp:9184-9190 | The part reported as failed is the first in plan order that cannot be meshed. |
| MeshMemory.BuildPartMeshes | src-tauri/native/direct_occt_runner.cpp:9125-9207 | A plan is refused exactly if some part has no cache key, with and without a cache and before anything is built. Otherwise each part without a cached mesh is built once and in plan order, the meshes come back in plan order, and with a configured limit the "cannot admit" error is unreachable. |

## Left out

- Geometry: OCCT and Manifold operations, tessellation and exports are abstract functions of the values they read. Of a
  value only its kind is known: analytic shape, mesh or frame.
- Rounding: the hull is over integers, where `> 1e-9` is `> 0`; clipping and welding are over reals, where the guard
  against `f64::EPSILON` compares with 0, coordinates are finite, zero has no sign and cells are not cut to 64 bits;
  doubles in the codec are 64-bit patterns.
- Cache files, staging, the digests in cache keys and partial-group identities, eviction, timing and evidence counters of
  `evaluate_plan`: the model starts from what the caches supplied.
- Evaluate.CollectParts: writing a finished part to the cache is not modelled, nor what OCCT makes of the empty shape that
  a mesh-domain part with bindings hands it there (lines 7898-7910).
- CacheKeys.PartCacheKey: whether a command can be put into a key for itself is a parameter; it covers imported files that
  cannot be read, numbers that are not finite and the digest of the runner.
- Threads: tasks of a batch are computed from the slots captured at launch and completed in batch order, as the futures
  are collected; locked sections are single steps; a lease ends in one step.
- Plan parsing beyond the checks on pair groups, and the JSON of a plan.
- Hull.ConeTo: visits counted edges in any order, where the source follows the order of its map; no result depends on it.
- Locks.Resolve: the address of the registry is not part of the lock, and its form, like that of names and digests, is a
  parameter. A lookup that fails for any reason is an absent release.
- Sha256.Stream.Update: sizes are unbounded, only the byte total wraps as in the source.
- Identity.ExecutionIdentity: argument, selector and number texts are given; their own canonical forms are not modelled.
- Scanners.ExtractModel: works on characters where the source works on UTF-8 bytes; the characters that matter are one
  byte each. Its 32-bit depth counter is unbounded here. Stripping code fences is not modelled.
- MeshMemory.BuildPartMeshes: building a mesh is a partial function of the part; the mesh cache is what it supplied.
- HTTP, SQLite, archives, configuration, prompts, the repair gate and the user interface.
