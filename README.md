# planetsim: a verified model of the simulation core

This project models the core of planetsim, a small solar-system simulator written in
Rust. The core has four parts:

- **Decimal 3-vectors** (`DecimalVector`): the componentwise and scalar operators, the
  dot and cross products, length, distance and normalisation. The in-place operators
  (`assign`, `normalize`, `+= -= *= /=` by a scalar) are methods of the class
  `MutableVector3`.
- **3×3 decimal matrices** (`DecimalMatrix`): the identity, Rodrigues' axis–angle
  rotation, the transposed application to a vector, and the conversion to a quaternion.
  The conversion uses the trace branch or the branch on the largest diagonal entry, and
  writes its four slots by index.
- **Astronomical-unit conversion** (`Au`).
- **The simulation engine** (`Engine.Simulation`): a flat list of runtime records and an
  id counter.
  - `add_hierarchy` registers a tree of bodies depth first and hands out ids.
  - Lookups by name and by id return the first match.
  - `resolve_hierarchy_up` and `resolve_hierarchy_down` walk the parent and satellite
    links.
  - `update(time)` schedules the walk down from every Static body. It then moves each
    scheduled body to its closed-form position at `time`. Velocity is the difference
    from the position one second earlier. Orientation is the spin rotation at `time`.
  - Three queries: the nearest Static body, the nearest body below it, and the
    gravitational field at a point.

How the model is laid out:

- The arbitrary-precision decimal is an exact `real`.
- The decimal square root, the series sine and cosine, and the constant 2π come from
  code that is not part of this model. Every operation that needs them receives them as
  parameters: `sqrt: real -> real` and `Trig`.
- `Numerics.IsSqrt` states the one law about the square root that the proofs rely on.
- The engine's state lives in the class `Engine.Simulation`. Its methods change
  `bodies` and `idCounter`, and each method is proved equal to a specification function
  of the modules below:
  - `Records`: records, lookups, registration as `Flatten`, well-formedness.
  - `Hierarchy`: the walks `Up` and `Down`.
  - `Update`: the schedule, positions, `Step`, `RunSchedule`, `UpdateState`.
  - `Queries`: nearest bodies, gravity, surface velocity.
- The lemmas about those functions state what the engine promises. Examples:
  - Registration keeps the list well formed.
  - The walk up is a chain of parents with strictly decreasing ids.
  - Every parent is scheduled before its children.
  - `update` is idempotent at a fixed time.
  - The closest-static query returns the first Static record at the smallest distance.
  - The gravity term of a body with positive mass pulls the point towards that body.

## Model

| member | source | states |
|---|---|---|
| Numerics.Fract | src/simulation.rs:147 | the fractional part lies in [0, 1) and differs from its argument by an integer |
| Numerics.FractPeriodic | src/simulation.rs:147 | shifting the argument by any integer leaves the fractional part unchanged |
| DecimalVector.Zero | src/decimal_vector_3d.rs:14-20 | all components are zero and it is the identity of vector addition |
| DecimalVector.Cross | src/decimal_vector_3d.rs:75-88 | the cross product is orthogonal to both operands |
| DecimalVector.LengthSquared | src/decimal_vector_3d.rs:48-50 | the squared length is the dot product of the vector with itself and is never negative |
| DecimalVector.AddCommutes | src/decimal_vector_3d.rs:105-151 | vector addition is commutative |
| DecimalVector.AddThenSubCancels | src/decimal_vector_3d.rs:219-265 | subtracting what was added restores the vector |
| DecimalVector.SubThenAddCancels | src/decimal_vector_3d.rs:219-265 | adding what was subtracted restores the vector |
| DecimalVector.MulThenDivCancels | src/decimal_vector_3d.rs:447-493 | componentwise division by a vector with no zero component undoes componentwise multiplication |
| DecimalVector.ScalarOperatorsBroadcast | src/decimal_vector_3d.rs:153-199 | each scalar operator equals the vector operator applied to the scalar broadcast to all three components |
| DecimalVector.ScalarAddSubCancel | src/decimal_vector_3d.rs:267-313 | scalar subtraction undoes scalar addition |
| DecimalVector.ScalarMulDivCancel | src/decimal_vector_3d.rs:495-541 | division by a nonzero scalar undoes multiplication by it |
| DecimalVector.DotSymmetric | src/decimal_vector_3d.rs:71-73 | the dot product is symmetric |
| DecimalVector.DotScales | src/decimal_vector_3d.rs:71-73 | scaling one operand scales the dot product by the same factor |
| DecimalVector.CrossAntiCommutes | src/decimal_vector_3d.rs:75-88 | swapping the operands negates the cross product |
| DecimalVector.CrossSelfIsZero | src/decimal_vector_3d.rs:75-88 | a vector crossed with itself is the zero vector |
| DecimalVector.LengthSquaredZeroIffZero | src/decimal_vector_3d.rs:48-50 | the squared length is zero exactly for the zero vector |
| DecimalVector.LengthIsRootOfLengthSquared | src/decimal_vector_3d.rs:52-54 | under the square-root law the length is non-negative and squares to the squared length |
| DecimalVector.LengthZeroIffZero | src/decimal_vector_3d.rs:52-54 | under the square-root law the length is zero exactly for the zero vector, so normalisation is defined exactly for nonzero vectors |
| DecimalVector.DistanceIsLengthOfDifference | src/decimal_vector_3d.rs:56-59 | the distance is the root of the squared length of the difference |
| DecimalVector.DistanceSymmetric | src/decimal_vector_3d.rs:56-59 | the distance from a to b equals the distance from b to a |
| DecimalVector.NormalizedRescales | src/decimal_vector_3d.rs:66-69 | the normalised vector times the original length is the original vector, and its squared length times the squared length of the original is the original's squared length |
| DecimalVector.NormalizedUnit | src/decimal_vector_3d.rs:66-69 | under the square-root law the normalised vector has squared length one |
| DecimalVector.MutableVector3.constructor | src/decimal_vector_3d.rs:22-24 | the new vector holds the given components |
| DecimalVector.MutableVector3.Assign | src/decimal_vector_3d.rs:26-30 | after `assign` the vector holds the given components |
| DecimalVector.MutableVector3.AddAssign | src/decimal_vector_3d.rs:201-215 | `+=` adds the scalar to every component in place |
| DecimalVector.MutableVector3.SubAssign | src/decimal_vector_3d.rs:315-329 | `-=` subtracts the scalar from every component in place |
| DecimalVector.MutableVector3.MulAssign | src/decimal_vector_3d.rs:429-443 | `*=` multiplies every component by the scalar in place |
| DecimalVector.MutableVector3.DivAssign | src/decimal_vector_3d.rs:543-557 | `/=` by a nonzero scalar divides every component in place |
| DecimalVector.MutableVector3.Normalize | src/decimal_vector_3d.rs:61-64 | `normalize` leaves in place the value `normalized` returns |
| DecimalVector.AddAssignThenSubAssignRestores | src/decimal_vector_3d.rs:201-215 | `+=` then `-=` with the same scalar restores the vector |
| Au.AuToMeters | src/au.rs:7-9 | dividing the result by the meters-per-AU constant gives the input back |
| Au.MetersToAu | src/au.rs:11-13 | multiplying the result by the constant gives the input back |
| Au.RoundTrips | src/au.rs:5-13 | converting to meters and back, or to AU and back, is the identity |
| Au.OneAu | src/au.rs:5-9 | one AU converts to 149597870691 meters |
| Au.ConversionsMonotone | src/au.rs:7-13 | both conversions are strictly increasing |
| DecimalMatrix.IdentityEntries | src/decimal_matrix_3d.rs:16-24 | the identity has one on the diagonal and zero everywhere else |
| DecimalMatrix.Transpose | src/decimal_matrix_3d.rs:52-69 | entry (r, c) of the transpose is entry (c, r) of the matrix |
| DecimalMatrix.ApplyIsTransposedProduct | src/decimal_matrix_3d.rs:52-69 | `apply` equals the textbook row-major product with the transposed matrix |
| DecimalMatrix.ApplyIdentity | src/decimal_matrix_3d.rs:16-24 | applying the identity leaves every vector unchanged |
| DecimalMatrix.ApplyAdditive | src/decimal_matrix_3d.rs:52-69 | `apply` distributes over vector addition |
| DecimalMatrix.ApplyHomogeneous | src/decimal_matrix_3d.rs:52-69 | `apply` commutes with scaling |
| DecimalMatrix.RotationWithoutTurnIsIdentity | src/decimal_matrix_3d.rs:30-48 | with cosine one and sine zero the Rodrigues matrix is the identity, for any axis |
| DecimalMatrix.AxisAngleWithoutTurnIsIdentity | src/decimal_matrix_3d.rs:26-50 | `axis_angle` gives the identity whenever the cosine of the negated angle is one and its sine zero |
| DecimalMatrix.RotationFixesUnitAxis | src/decimal_matrix_3d.rs:26-69 | for a unit axis, applying the axis–angle matrix leaves the axis fixed, whatever the cosine and sine |
| DecimalMatrix.RotationSymmetricPart | src/decimal_matrix_3d.rs:31-48 | each off-diagonal entry plus its mirror is 2(1 − cos) times the product of the two axis components; the sine terms cancel |
| DecimalMatrix.PivotIndex | src/decimal_matrix_3d.rs:84-90 | the index chosen is a largest diagonal entry and no earlier index has one as large |
| DecimalMatrix.PivotUnique | src/decimal_matrix_3d.rs:84-90 | an index is the first largest diagonal index exactly when it is the chosen pivot |
| DecimalMatrix.CyclicIndicesPermute | src/decimal_matrix_3d.rs:91-92 | i, (i+1)%3 and (i+2)%3 are three distinct indices covering 0, 1 and 2 |
| DecimalMatrix.PivotSlots | src/decimal_matrix_3d.rs:96-102 | the four slots hold the pivot value at i, w at 3 and the two others at (i+1)%3 and (i+2)%3 |
| DecimalMatrix.QuatDefinedUnderSqrtLaw | src/decimal_matrix_3d.rs:75-95 | under the square-root law the conversion is defined exactly when the trace is positive or the pivot radicand is positive |
| DecimalMatrix.AsQuat | src/decimal_matrix_3d.rs:71-104 | `as_quat`, including its index writes into a four-slot array, returns the quaternion of the two-branch specification |
| DecimalMatrix.FillSlots | src/decimal_matrix_3d.rs:96-102 | the array writes of the second branch produce exactly the slot layout |
| DecimalMatrix.PivotSlotsDetermined | src/decimal_matrix_3d.rs:96-102 | four slots with the right value at each of the four places are that layout |
| DecimalMatrix.QuatTraceBranchRecovers | src/decimal_matrix_3d.rs:75-82 | in the trace branch, 4·w·x, 4·w·y and 4·w·z give back the three antisymmetric differences of the matrix |
| DecimalMatrix.QuatPivotBranchRecovers | src/decimal_matrix_3d.rs:84-101 | in the pivot branch, 4·q[i] times each other slot gives back the antisymmetric difference or the symmetric sums |
| DecimalMatrix.QuatTraceSlot | src/decimal_matrix_3d.rs:75-78 | under the square-root law, in the trace branch w is positive and 4w² = trace + 1 |
| DecimalMatrix.QuatPivotSlot | src/decimal_matrix_3d.rs:94-97 | under the square-root law, in the pivot branch the pivot slot is positive and four times its square is the radicand |
| DecimalMatrix.QuatOfIdentity | src/decimal_matrix_3d.rs:71-82 | the identity converts to the identity quaternion [0, 0, 0, 1] |
| Records.IndexOfId | src/simulation.rs:79-87 | the index found holds the id and no earlier record does; `None` exactly when no record has the id |
| Records.IndexOfName | src/simulation.rs:59-67 | the index found holds the name and no earlier record does; `None` exactly when no record has the name |
| Records.FindById | src/simulation.rs:69-77 | the record found is in the list and has the id; `None` exactly when no record has it |
| Records.FindByName | src/simulation.rs:59-67 | the record found is in the list and has the name; `None` exactly when no record has it |
| Records.FindByIdDistinct | src/simulation.rs:69-77 | with distinct ids, looking up the id of the record at index k finds index k and that record |
| Records.SameIdSameRecord | src/simulation.rs:69-77 | with distinct ids a record of the list is determined by its id |
| Records.ChildIdsAt | src/simulation.rs:50-54 | the k-th satellite's id is the start id plus the number of bodies in the subtrees before it |
| Records.ChildIdsRange | src/simulation.rs:50-54 | one id per satellite, each within the id range the satellites take |
| Records.FlattenIds | src/simulation.rs:38-57 | registering a tree appends as many records as it has bodies, with distinct ids filling the range from the counter |
| Records.FlattenLinks | src/simulation.rs:38-57 | every satellite id a new record lists names a new record that points back to it as parent |
| Records.FlattenChildrenParents | src/simulation.rs:50-55 | below the root of a registered tree every record comes after its parent |
| Records.FlattenFacts | src/simulation.rs:38-57 | the root record is appended last, with the counter as id, the given parent and its satellites' ids in input order, after records that keep ids distinct, links consistent and parents first |
| Records.FlattenFresh | src/simulation.rs:41-49 | every new record starts at zero position and velocity with the identity orientation |
| Records.AddKeepsSatellitesAfter | src/simulation.rs:38-57 | registering a tree under any parent, even an id never handed out, keeps every satellite id above its owner's, which is all the walk down and `update` need |
| Records.AddKeepsRegistered | src/simulation.rs:38-57 | registering a tree under any parent keeps one record per id below the advanced counter, distinct ids, satellites inside the range and satellite links confirmed by the satellites |
| Records.AddKeepsWellFormed | src/simulation.rs:38-57 | registering a tree under a parent whose id is below the counter keeps the list well formed, with the counter advanced by the tree's size |
| Hierarchy.WellFormedIsWalkable | src/simulation.rs:89-140 | a well-formed list satisfies what the walk up needs to terminate |
| Hierarchy.SelfParentNotWalkable | src/simulation.rs:38-57 | registering a tree with the id about to be handed out as parent makes the root its own parent: looking that parent up finds the root itself, and the list is not walkable |
| Hierarchy.KnownParentWalkable | src/simulation.rs:38-57 | registering a tree under no parent or an id already handed out keeps the list well formed and walkable |
| Hierarchy.IdCeiling | src/simulation.rs:117-140 | a non-negative bound above every id of the list |
| Hierarchy.UpChain | src/simulation.rs:89-115 | the walk up starts at the parent's record, is a chain of parents of records of the list with strictly decreasing ids below the body's, and is empty exactly when there is no parent or it is not found |
| Hierarchy.UpIdsDecrease | src/simulation.rs:89-115 | every record of the walk up is in the list, below the body's id, in strictly decreasing id order |
| Hierarchy.UpTransitive | src/simulation.rs:89-115 | ancestors of an ancestor are ancestors |
| Hierarchy.OwnerIsParent | src/simulation.rs:89-115 | with distinct ids and consistent links, the walk up from a satellite is its owner followed by the owner's walk up |
| Hierarchy.DownBelow | src/simulation.rs:117-140 | every record of the walk down is in the list and has a larger id than the body, so the body itself is never part of it |
| Hierarchy.DownParentsFirst | src/simulation.rs:117-140 | with consistent links the walk down lists every record after its parent |
| Hierarchy.DownHasSatellite | src/simulation.rs:129-138 | every satellite whose record is found is part of the walk down |
| Hierarchy.DownUnderAncestor | src/simulation.rs:117-140 | with distinct ids and consistent links, the body is an ancestor of every record below it |
| Hierarchy.DownListed | src/simulation.rs:117-140 | every record of the walk down is listed as a satellite by some record |
| Hierarchy.DownFollowed | src/simulation.rs:117-140 | in the walk down every occurrence of a record is followed later by each of its found satellites |
| Hierarchy.SatelliteInDown | src/simulation.rs:117-140 | a found satellite occurs in the walk down from its owner |
| Update.Ids | src/simulation.rs:173-175 | the ids of the records, one per record, in order |
| Update.ScheduleMembers | src/simulation.rs:167-179 | an id is scheduled exactly when it belongs to a record on the walk down from some Static record |
| Update.UnanchoredNotScheduled | src/simulation.rs:167-179 | a record with no Static ancestor is never scheduled |
| Update.RootNotScheduled | src/simulation.rs:167-179 | a record without a parent is never scheduled, Static or not |
| Update.AnchoredScheduled | src/simulation.rs:167-179 | every record on the walk down from a Static record is scheduled |
| Update.PhasePeriodic | src/simulation.rs:147-148 | the orbit angle is the same one period later |
| Update.PositionPeriodic | src/simulation.rs:142-158 | an orbiting body is back at the same position after one full period |
| Update.OrientationPeriodic | src/simulation.rs:160-164 | the orientation is the same after one full spin period |
| Update.VelocityIgnoresParentPosition | src/simulation.rs:183-185 | the velocity does not depend on where the parent is, and is zero for a Static body |
| Update.FrameWellFormed | src/simulation.rs:180-192 | well-formedness depends only on ids, bodies, parents and satellites, which `update` never writes |
| Update.FrameLookup | src/simulation.rs:69-87 | lookups by id only see ids, so they agree on lists with the same frame |
| Update.Step | src/simulation.rs:180-192 | one step keeps the frame and changes no record whose id differs from the stepped id |
| Update.RunSchedule | src/simulation.rs:180-192 | running a schedule keeps the frame and changes no record whose id is not scheduled |
| Update.StepFixedPoint | src/simulation.rs:180-192 | a step changes nothing exactly when the found record is already advanced |
| Update.StepKeepsOther | src/simulation.rs:188-191 | a step for one id leaves the record found for any other id unchanged |
| Update.SettledStepStaysSettled | src/simulation.rs:180-192 | a step whose record is already advanced stays so after a step for a different id it does not read |
| Update.StepRepeated | src/simulation.rs:180-192 | repeating a step changes nothing unless the record reads itself as parent |
| Update.RunScheduleSettles | src/simulation.rs:180-192 | after running a schedule, a step whose parent does not move after its last occurrence is a fixed point |
| Update.RunSettledSchedule | src/simulation.rs:180-192 | a schedule of steps that are all fixed points changes nothing |
| Update.ScheduleParentsFirst | src/simulation.rs:167-192 | every scheduled record that is found has a parent, and that parent is either scheduled earlier or a Static record |
| Update.ScheduleFrame | src/simulation.rs:167-179 | positions, velocities and orientations do not influence the schedule |
| Update.ScheduleSettles | src/simulation.rs:167-192 | every scheduled body is stepped again after every step of the parent it reads |
| Update.ScheduleFollowed | src/simulation.rs:167-179 | in the schedule every step of a record is followed later by a step of each of its found satellites |
| Update.ParentReadIsEarlier | src/simulation.rs:142-146 | when parents come first, the parent a step reads has a smaller id than the body stepped |
| Update.UpdateIdempotent | src/simulation.rs:166-193 | running `update` a second time at the same time changes nothing |
| Queries.NearestStaticAmong | src/simulation.rs:211-227 | the running minimum is an index among the records scanned so far |
| Queries.NearestStaticAmongIsFirstMinimum | src/simulation.rs:211-225 | the running minimum is `None` exactly when no scanned record is Static; otherwise it is a Static record no farther than any scanned Static record, and strictly nearer than every earlier one |
| Queries.ClosestStatic | src/simulation.rs:211-227 | the index returned is a valid index of the list |
| Queries.ClosestStaticIsNearest | src/simulation.rs:211-227 | `find_closest_static` returns the first Static record at the smallest distance, or the first record when none is Static |
| Queries.NearestAmong | src/simulation.rs:235-243 | the running minimum is an index among the first n records |
| Queries.NearestStep | src/simulation.rs:237-243 | the running minimum moves to the next record exactly when it is strictly nearer |
| Queries.NearestAmongIsFirstMinimum | src/simulation.rs:235-243 | the running minimum is no farther than any scanned record and strictly nearer than every earlier one |
| Queries.ClosestBodyIsNearestBelow | src/simulation.rs:229-245 | `find_closest_body` returns the nearest Static record when nothing lies below it, and otherwise the first record below it at the smallest distance, never the Static record itself |
| Queries.PullSteps | src/simulation.rs:254-259 | the term computed step by step is the pull of that body |
| Queries.FluxStep | src/simulation.rs:253-260 | each iteration adds the next body's pull to the running sum |
| Queries.FluxAdditive | src/simulation.rs:253-260 | the sum over two lists is the sum of the two sums |
| Queries.GravityFluxSplits | src/simulation.rs:247-261 | the field is the sum over the walk down from the nearest Static record plus one term for that record |
| Queries.PullPointsToBody | src/simulation.rs:255-259 | under the square-root law a body of positive mass pulls the point towards itself |
| Queries.SurfaceVelocityOrthogonal | src/simulation.rs:199-209 | the surface velocity is orthogonal to the spin axis and to the point |
| Engine.Simulation.constructor | src/simulation.rs:31-36 | a new engine has no records, counter zero, and is well formed |
| Engine.Simulation.AddHierarchy | src/simulation.rs:38-57 | returns the old counter, advances it by the tree's size and appends the records of the registration; for any parent it keeps the list registered (ids, satellite ranges and links) and satellite ids above their owners'; with no parent or an id already handed out it keeps the list well formed and walkable |
| Engine.Simulation.AddSatellites | src/simulation.rs:50-54 | the satellite loop advances the counter by the subtrees' size, returns the satellites' ids in order and appends their records |
| Engine.Simulation.GetBodyByName | src/simulation.rs:59-67 | the loop returns the first record with the name, or `None` |
| Engine.Simulation.GetBodyById | src/simulation.rs:69-77 | the loop returns the first record with the id, or `None` |
| Engine.Simulation.GetMutBodyById | src/simulation.rs:79-87 | the loop returns the position of the first record with the id, or `None` |
| Engine.Simulation.ResolveHierarchyUp | src/simulation.rs:89-115 | the recursion returns the walk up |
| Engine.Simulation.ResolveHierarchyDown | src/simulation.rs:117-140 | the loop and recursion return the walk down |
| Engine.Simulation.GetBodyPosition | src/simulation.rs:142-158 | the fixed position of a Static body, or the rotated orbit radius plus the parent's position |
| Engine.Simulation.Update | src/simulation.rs:166-193 | the records become the update state, the counter is kept, and a well-formed engine stays well formed |
| Engine.Simulation.AdvanceBody | src/simulation.rs:181-191 | one loop iteration performs one step, keeps the counter, and keeps a well-formed engine well formed |
| Engine.Simulation.BuildSchedule | src/simulation.rs:167-179 | the first loop builds the schedule |
| Engine.Simulation.GetBody | src/simulation.rs:195-197 | returns the first record with the name, which must exist |
| Engine.Simulation.GetSurfaceVelocity | src/simulation.rs:199-209 | the surface velocity of the first record with the name |
| Engine.Simulation.FindClosestStatic | src/simulation.rs:211-227 | the running-minimum loop returns the closest-static index |
| Engine.Simulation.FindClosestBody | src/simulation.rs:229-245 | the loop over the walk down returns the closest body |
| Engine.Simulation.CalculateGravityFlux | src/simulation.rs:247-261 | the loop returns the sum of the pulls over the walk down plus the nearest Static record |
| Engine.AppendIds | src/simulation.rs:173-175 | the inner loop appends the ids of the walk to the schedule |
| Engine.RunStepLemma | src/simulation.rs:180-192 | running one more step of the schedule applies that step to the state after the earlier steps |

## Left out

- Printing, parsing from text or `f64`, `Display`, the demo entry point and the lazily
  initialised statics are not modelled. The constants are plain `const`s.
- The decimal type's precision and rounding are not modelled: every scalar is an exact
  `real`.
- The square root, the series sine and cosine, and 2π are parameters. The only property
  assumed of the root is the square-root law `IsSqrt`, and only where a lemma says so.
  No property of the series sine and cosine is assumed. So the quaternion returned by
  `as_quat` is not proved to describe the same rotation as the matrix.
- `fract` is modelled as x − ⌊x⌋. The decimal library's `fract` keeps the sign of a
  negative argument, so phases at negative times (time / period < 0) are not modelled
  faithfully.
- Ids are unbounded integers: the 32-bit wrap-around of `id_counter` after 2³¹
  registrations is not modelled.
- Panics become preconditions:
  - the `unwrap` of a missing parent or record;
  - division by a zero period, length or root;
  - a zero divisor of the vector `/` or `/=` (`Div`, `DivScalar`, `DivAssign`);
  - the root of a negative number in `as_quat`;
  - indexing `bodies[0]` on an empty list.

  They are `PositionDefined`, `StepDefined`, `UpdateDefined`, `QuatDefined`,
  `AllPullsDefined` and the `requires` of the engine methods.
- References are modelled as values. `get_mut_body_by_id` returns the index of the
  record, and `update` writes the record at that index. Aliasing between the returned
  references is not modelled.
- The walk up (`resolve_hierarchy_up`) requires `Walkable`:
  - ids are non-negative;
  - a parent's id is below its child's;
  - a satellite's id is above its owner's.

  Without this the source's recursion up need not terminate: a parent id given to
  `add_hierarchy` may be any id, including the body's own (see "## Findings"). Every
  list built only by `add_hierarchy` with a parent below the counter is `Walkable`
  (`Hierarchy.KnownParentWalkable`).
- The walk down, the schedule, `update` and the three queries require only
  `SatellitesAfter`: every satellite id is above its owner's. `add_hierarchy` keeps this
  for any parent (`Records.AddKeepsSatellitesAfter`), so those operations stay defined
  after every registration the source accepts.
- Engine.Simulation.AddHierarchy: parents before children (`ParentsBefore`) is kept only
  when the parent given is `None` or an id already handed out. The source accepts any
  parent id and never adds the new root to that parent's satellite list. The model does
  the same; for any parent it still keeps `Registered` and `SatellitesAfter`.
- `get_body_orientation` is the function `Update.BodyOrientation`. It has no method of
  its own because it reads no engine state.
- `DBig::INFINITY`, the starting minimum of `find_closest_static`, is modelled by an
  `Option` whose `None` stands for "no Static record seen yet".
- Static records: `update` never writes a Static record without a parent, because a
  record without a parent is never scheduled (`Update.RootNotScheduled`). Its runtime
  position therefore stays zero, as registration left it. The
  distance queries measure from that runtime position, as the source does, not from the
  configured Static position.

## Findings

| source | as written | input that shows it | evidently intended | confidence | as-written member | corrected member |
|---|---|---|---|---|---|---|
| src/simulation.rs:38-57 | `add_hierarchy` stores any `parent` it is given, unchecked | `add_hierarchy(b, Some(id_counter))`: the new root gets the id `id_counter` and names itself as parent, so `resolve_hierarchy_up` on it (src/simulation.rs:89-115) finds the same body again and recurses without end | the parent is `None` or a body already registered (an id below `id_counter`), which keeps every parent id below its child's and the walk up finite | medium, not executed | Hierarchy.SelfParentNotWalkable | Hierarchy.KnownParentWalkable |
