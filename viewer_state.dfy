/**
 * The state of the `App` component that the asset pipeline and the overlay
 * controls change, and one function per handler giving the state it leaves.
 * The Spine entity is an opaque handle reduced to what the component reads
 * and writes: its slot names, its animation names, its screen position, the
 * time scale of its animation state and the animation set on track 0.
 */
module ViewerState {
  import opened Wrappers
  import opened Lists
  import opened Text

  datatype Point = Point(x: real, y: real)

  /** `a + b`, coordinate-wise. */
  function Offset(a: Point, b: Point): Point {
    Point(a.x + b.x, a.y + b.y)
  }

  /** An overlay circle: a `Graphics` filled with `color`, of radius `radius`, drawn around `position`. */
  datatype Marker = Marker(position: Point, radius: real, color: int)

  /** The circle `addCircleToSlot` draws: red (0xff0000), radius 10, at the local origin. */
  function NewMarker(): Marker {
    Marker(Point(0.0, 0.0), 10.0, 0xff0000)
  }

  /** What the skeleton data exposes to the component: slot names and animation names, in order. */
  datatype Skeleton = Skeleton(slots: seq<string>, animations: seq<string>)

  /** The live Spine instance (`spineInstanceRef.current`). */
  datatype Entity = Entity(skeleton: Skeleton, position: Point, timeScale: real, track: Option<string>)

  /** A snapshot of the component's state. */
  datatype ViewState = ViewState(
    entity: Option<Entity>,              // spineInstanceRef.current
    circles: map<string, Marker>,        // attachedCirclesRef.current
    addedSlots: seq<string>,
    availableAnimations: seq<string>,
    selectedAnimation: string,
    animationPlaying: bool,
    spineLoaded: bool,
    errorMsg: string)

  const NoFilesMessage := "Файлы не найдены"
  const MissingDocumentsMessage := "Не найдены необходимые файлы: JSON и ATLAS"
  const JsonReadErrorMessage := "Ошибка при чтении JSON файла"
  const AtlasReadErrorMessage := "Ошибка при чтении ATLAS файла"
  const JsonParseErrorPrefix := "Ошибка при разборе JSON файла: "
  const CreateErrorPrefix := "Ошибка при создании Spine-анимации: "

  /**
   * What parsing the skeleton text and building the Spine instance yields:
   * `JSON.parse` throws, the Spine runtime throws, or an instance is built.
   */
  datatype Assembly = MalformedSkeleton(message: string) | RuntimeError(message: string) | Built(skeleton: Skeleton)

  /**
   * The invariants every handler keeps: the list of attached slots names each
   * circle's slot exactly once; there are circles only while an entity is
   * active; the "loaded" flag tells whether an entity is active; and "playing"
   * means an entity is active with its animation running at time scale 1.
   */
  ghost predicate Consistent(s: ViewState) {
    && NoDup(s.addedSlots)
    && (forall slot :: slot in s.addedSlots <==> slot in s.circles)
    && (s.entity.None? ==> s.circles == map[])
    && (s.spineLoaded <==> s.entity.Some?)
    && (s.animationPlaying ==> s.entity.Some? && s.entity.value.timeScale == 1.0)
  }

  /** The state the start of `onDrop` leaves, whatever came before, showing `message`. */
  function Cleared(message: string): ViewState {
    ViewState(None, map[], [], [], "", false, false, message)
  }

  /**
   * `createSpineAnimation` (and the `JSON.parse` before it): on success the new
   * entity, centred at `center`, replaces the active one, with the first
   * animation looping if there is one; a failure only shows its message.
   */
  function Assembled(s: ViewState, center: Point, a: Assembly): ViewState {
    match a
    case MalformedSkeleton(m) => s.(errorMsg := JsonParseErrorPrefix + m)
    case RuntimeError(m) => s.(errorMsg := CreateErrorPrefix + m)
    case Built(sk) =>
      if |sk.animations| > 0 then
        s.(entity := Some(Entity(sk, center, 1.0, Some(sk.animations[0]))),
           animationPlaying := true,
           availableAnimations := sk.animations,
           selectedAnimation := sk.animations[0],
           spineLoaded := true)
      else
        s.(entity := Some(Entity(sk, center, 1.0, None)), spineLoaded := true)
  }

  /** `toggleAnimation`: pausing sets the time scale to 0, resuming sets it to 1. */
  function Toggled(s: ViewState): ViewState {
    match s.entity
    case None => s
    case Some(e) =>
      if s.animationPlaying then s.(entity := Some(e.(timeScale := 0.0)), animationPlaying := false)
      else s.(entity := Some(e.(timeScale := 1.0)), animationPlaying := true)
  }

  /** `handleAnimationSelect`: records the choice and, with an active entity, loops it on track 0. */
  function AnimationSelected(s: ViewState, name: string): ViewState {
    match s.entity
    case None => s.(selectedAnimation := name)
    case Some(e) => s.(selectedAnimation := name, entity := Some(e.(track := Some(name))))
  }

  /** `addCircleToSlot`: without an entity, or when the slot already has a circle, nothing happens. */
  function CircleAdded(s: ViewState, slot: string): ViewState {
    if s.entity.None? || slot in s.circles then s
    else s.(circles := s.circles[slot := NewMarker()], addedSlots := s.addedSlots + [slot])
  }

  /** `removeCircleFromSlot`: without an entity, or when the slot has no circle, nothing happens. */
  function CircleRemoved(s: ViewState, slot: string): ViewState {
    if s.entity.None? || slot !in s.circles then s
    else s.(circles := s.circles - {slot}, addedSlots := FilterOut(s.addedSlots, slot))
  }

  /**
   * `skeleton.findSlot(slot)` finds a slot and that slot has a bone: the name is
   * one of the entity's slots and `pose`, the bones' world positions in this
   * frame, has an entry for it. A name that is not a slot finds nothing.
   */
  predicate HasBone(e: Entity, pose: map<string, Point>, slot: string) {
    slot in e.skeleton.slots && slot in pose
  }

  /**
   * `updateCircles`, run every frame: each circle whose slot has a bone moves
   * to the entity's position plus that bone's world position; the other
   * circles stay where they are.
   */
  function Ticked(s: ViewState, pose: map<string, Point>): ViewState {
    match s.entity
    case None => s
    case Some(e) =>
      s.(circles := map slot | slot in s.circles ::
           if HasBone(e, pose, slot) then s.circles[slot].(position := Offset(e.position, pose[slot]))
           else s.circles[slot])
  }

  /** The slot names, in order, whose lower-cased form includes `needle`. */
  function FilterSlots(slots: seq<string>, needle: string): (r: seq<string>)
    ensures forall name :: name in r <==> name in slots && Includes(ToLower(name), needle)
    ensures |r| <= |slots|
  {
    if slots == [] then []
    else if Includes(ToLower(slots[0]), needle) then [slots[0]] + FilterSlots(slots[1..], needle)
    else FilterSlots(slots[1..], needle)
  }

  /** `filteredSlotNames`: the active entity's slots that match the filter ignoring case, or none. */
  function FilteredSlotNames(s: ViewState, filter: string): (r: seq<string>)
    ensures forall name :: name in r <==>
      s.entity.Some? && name in s.entity.value.skeleton.slots && Includes(ToLower(name), ToLower(filter))
  {
    if s.entity.None? then [] else FilterSlots(s.entity.value.skeleton.slots, ToLower(filter))
  }

  // ---------------------------------------------------------------------------
  // Invariants kept by every handler

  lemma ClearedConsistent(message: string)
    ensures Consistent(Cleared(message))
  {
  }

  lemma AssembledConsistent(s: ViewState, center: Point, a: Assembly)
    requires Consistent(s)
    ensures Consistent(Assembled(s, center, a))
  {
  }

  lemma ToggledConsistent(s: ViewState)
    requires Consistent(s)
    ensures Consistent(Toggled(s))
  {
  }

  lemma AnimationSelectedConsistent(s: ViewState, name: string)
    requires Consistent(s)
    ensures Consistent(AnimationSelected(s, name))
  {
  }

  lemma CircleAddedConsistent(s: ViewState, slot: string)
    requires Consistent(s)
    ensures Consistent(CircleAdded(s, slot))
  {
    if s.entity.Some? && slot !in s.circles {
      var added := s.addedSlots + [slot];
      assert slot !in s.addedSlots;
      assert forall i :: 0 <= i < |s.addedSlots| ==> added[i] == s.addedSlots[i];
    }
  }

  lemma CircleRemovedConsistent(s: ViewState, slot: string)
    requires Consistent(s)
    ensures Consistent(CircleRemoved(s, slot))
  {
  }

  lemma TickedConsistent(s: ViewState, pose: map<string, Point>)
    requires Consistent(s)
    ensures Consistent(Ticked(s, pose))
  {
  }

  // ---------------------------------------------------------------------------
  // What the handlers promise

  /**
   * A successful assembly with animations selects and loops the first one,
   * plays at time scale 1 and lists all animation names in order.
   */
  lemma AssemblyStartsFirstAnimation(s: ViewState, center: Point, sk: Skeleton)
    requires |sk.animations| > 0
    ensures var t := Assembled(s, center, Built(sk));
      && t.entity == Some(Entity(sk, center, 1.0, Some(sk.animations[0])))
      && t.selectedAnimation == sk.animations[0]
      && t.animationPlaying
      && t.availableAnimations == sk.animations
      && t.spineLoaded
  {
  }

  /** A failed parse or build installs nothing: only the error message changes. */
  lemma FailedAssemblyChangesOnlyMessage(s: ViewState, center: Point, a: Assembly)
    requires !a.Built?
    ensures Assembled(s, center, a) == s.(errorMsg := Assembled(s, center, a).errorMsg)
    ensures Assembled(s, center, a).errorMsg ==
      (if a.MalformedSkeleton? then JsonParseErrorPrefix else CreateErrorPrefix) + a.message
  {
  }

  /** With an active entity, toggling flips "playing" and sets the time scale to 1 when playing, 0 when paused. */
  lemma ToggleFlipsPlaying(s: ViewState)
    requires s.entity.Some?
    ensures Toggled(s).animationPlaying == !s.animationPlaying
    ensures Toggled(s).entity.Some?
    ensures Toggled(s).entity.value.timeScale == if s.animationPlaying then 0.0 else 1.0
  {
  }

  /** Pausing then resuming a playing entity restores the state exactly. */
  lemma PauseResumeRestores(s: ViewState)
    requires Consistent(s) && s.animationPlaying
    ensures Toggled(Toggled(s)) == s
  {
  }

  /** Attaching adds exactly one fresh circle, under that slot, and appends the slot to the list. */
  lemma AttachAddsOneCircle(s: ViewState, slot: string)
    requires Consistent(s) && s.entity.Some? && slot !in s.circles
    ensures CircleAdded(s, slot).circles == s.circles[slot := NewMarker()]
    ensures |CircleAdded(s, slot).circles| == |s.circles| + 1
    ensures CircleAdded(s, slot).addedSlots == s.addedSlots + [slot]
  {
  }

  /** Attaching a second time changes nothing: a slot holds at most one circle. */
  lemma AttachIdempotent(s: ViewState, slot: string)
    ensures CircleAdded(CircleAdded(s, slot), slot) == CircleAdded(s, slot)
  {
  }

  /** Detaching a slot without a circle changes nothing. */
  lemma DetachUnattachedIsNoop(s: ViewState, slot: string)
    requires slot !in s.circles
    ensures CircleRemoved(s, slot) == s
  {
  }

  /** Detaching an attached slot removes its key and its name, and nothing else. */
  lemma DetachRemovesSlot(s: ViewState, slot: string)
    requires Consistent(s) && slot in s.circles
    ensures CircleRemoved(s, slot).circles == s.circles - {slot}
    ensures slot !in CircleRemoved(s, slot).addedSlots
    ensures |CircleRemoved(s, slot).circles| == |s.circles| - 1
  {
  }

  /** Detach undoes attach: the index and the list are exactly as before. */
  lemma AttachThenDetachRestores(s: ViewState, slot: string)
    requires Consistent(s) && slot !in s.circles
    ensures CircleRemoved(CircleAdded(s, slot), slot) == s
  {
    if s.entity.Some? {
      assert slot !in s.addedSlots;
      FilterOutAppended(s.addedSlots, slot);
      FilterOutAbsent(s.addedSlots, slot);
      assert s.circles[slot := NewMarker()] - {slot} == s.circles;
    }
  }

  /**
   * A tick keeps every key of the index and every circle's look, moves each
   * circle whose slot has a bone to entity position plus bone position, leaves
   * the others in place, and changes nothing else.
   */
  lemma TickMovesOnlyPositions(s: ViewState, pose: map<string, Point>)
    requires s.entity.Some?
    ensures Ticked(s, pose).circles.Keys == s.circles.Keys
    ensures Ticked(s, pose) == s.(circles := Ticked(s, pose).circles)
    ensures forall slot :: slot in s.circles ==>
      && Ticked(s, pose).circles[slot].radius == s.circles[slot].radius
      && Ticked(s, pose).circles[slot].color == s.circles[slot].color
      && Ticked(s, pose).circles[slot].position ==
           if slot in s.entity.value.skeleton.slots && slot in pose
           then Offset(s.entity.value.position, pose[slot])
           else s.circles[slot].position
  {
  }

  /** A single slot is listed exactly when it matches. */
  lemma FilterSlotsOne(name: string, needle: string)
    ensures FilterSlots([name], needle) == if Includes(ToLower(name), needle) then [name] else []
  {
    assert [name][1..] == [];
  }

  /** The slot filter keeps order: filtering a concatenation concatenates the filtered parts. */
  lemma {:induction false} FilterSlotsKeepsOrder(xs: seq<string>, ys: seq<string>, needle: string)
    ensures FilterSlots(xs + ys, needle) == FilterSlots(xs, needle) + FilterSlots(ys, needle)
  {
    if xs == [] {
      assert xs + ys == ys;
    } else {
      var zs := xs + ys;
      assert zs[0] == xs[0] && zs[1..] == xs[1..] + ys;
      FilterSlotsKeepsOrder(xs[1..], ys, needle);
      var rest := FilterSlots(xs[1..], needle) + FilterSlots(ys, needle);
      if Includes(ToLower(xs[0]), needle) {
        assert FilterSlots(zs, needle) == [xs[0]] + rest;
        assert FilterSlots(xs, needle) == [xs[0]] + FilterSlots(xs[1..], needle);
      } else {
        assert FilterSlots(zs, needle) == rest;
      }
    }
  }

  /**
   * The listed slot names follow the skeleton's slot order: when the slots are
   * `xs` followed by `ys`, the list is the matches among `xs` followed by the
   * matches among `ys`.
   */
  lemma FilteredSlotNamesKeepOrder(s: ViewState, filter: string, xs: seq<string>, ys: seq<string>)
    requires s.entity.Some? && s.entity.value.skeleton.slots == xs + ys
    ensures FilteredSlotNames(s, filter) == FilterSlots(xs, ToLower(filter)) + FilterSlots(ys, ToLower(filter))
  {
    FilterSlotsKeepsOrder(xs, ys, ToLower(filter));
  }

  /** An empty filter shows every slot, in order. */
  lemma {:induction false} EmptyFilterKeepsAll(slots: seq<string>)
    ensures FilterSlots(slots, ToLower("")) == slots
  {
    if slots != [] {
      IncludesEmpty(ToLower(slots[0]));
      EmptyFilterKeepsAll(slots[1..]);
    }
  }
}
