/**
 * The `App` component as an object: its refs and React state are fields, and
 * each handler is a method whose new state is the matching function of
 * ViewerState applied to the old one. State updates are applied at once and
 * in order.
 */
module Viewer {
  import opened Wrappers
  import opened Table
  import opened DropBundle
  import opened ReaderJoin
  import opened ViewerState

  class App {
    /** Size of the rendering surface (`pixiAppRef.current.screen`). */
    const screenWidth: real
    const screenHeight: real

    var entity: Option<Entity>
    var circles: map<string, Marker>
    var addedSlots: seq<string>
    var availableAnimations: seq<string>
    var selectedAnimation: string
    var animationPlaying: bool
    var spineLoaded: bool
    var errorMsg: string
    /** `filesDataRef.current`: the object URLs of the last non-empty file list dropped. */
    var fileUrls: Table<string>

    function State(): ViewState
      reads this
    {
      ViewState(entity, circles, addedSlots, availableAnimations, selectedAnimation,
                animationPlaying, spineLoaded, errorMsg)
    }

    ghost predicate Valid()
      reads this
    {
      Consistent(State())
    }

    /** Where a new entity is placed: the centre of the rendering surface. */
    function Center(): Point
      reads this
    {
      Point(screenWidth / 2.0, screenHeight / 2.0)
    }

    /** Mounting: every state starts empty. */
    constructor (screenWidth: real, screenHeight: real)
      ensures Valid()
      ensures this.screenWidth == screenWidth && this.screenHeight == screenHeight
      ensures State() == Cleared("") && fileUrls == Empty()
    {
      this.screenWidth, this.screenHeight := screenWidth, screenHeight;
      entity, circles, addedSlots := None, map[], [];
      availableAnimations, selectedAnimation := [], "";
      animationPlaying, spineLoaded, errorMsg := false, false, "";
      fileUrls := Empty();
      ClearedConsistent("");
    }

    /**
     * `onDrop`: tear everything down first, then validate the list and, when
     * both documents are present, start the two reads (the returned callbacks'
     * state). A refused list starts no read and leaves only its error message.
     */
    method Drop(files: Option<seq<DroppedFile>>) returns (readers: Readers?)
      requires Valid()
      modifies this
      ensures Valid()
      ensures State() == Cleared(match Verdict(files)
                                 case NoFiles => NoFilesMessage
                                 case MissingDocuments => MissingDocumentsMessage
                                 case Accepted(_, _) => "")
      ensures readers == null <==> !Verdict(files).Accepted?
      ensures Verdict(files).NoFiles? ==> fileUrls == old(fileUrls)
      ensures !Verdict(files).NoFiles? ==> fileUrls.keys == Indexed(files.value).keys
      ensures !Verdict(files).NoFiles? ==> forall name :: name in Indexed(files.value).values ==>
        name in fileUrls.values && fileUrls.values[name] == Indexed(files.value).values[name].objectUrl
      ensures readers != null ==> fresh(readers) && readers.Slots() == Idle && readers.fileUrls == fileUrls
      ensures readers != null ==>
        && Some(readers.skeletonFile) == ChosenFile(files.value, SkeletonSuffix)
        && Some(readers.atlasFile) == ChosenFile(files.value, AtlasSuffix)
    {
      errorMsg, spineLoaded, animationPlaying := "", false, false;
      availableAnimations, selectedAnimation, addedSlots := [], "", [];
      circles := map[];
      entity := None;

      if files.None? || |files.value| == 0 {
        errorMsg := NoFilesMessage;
        return null;
      }
      var urls, skeletonFile, atlasFile := PrepareDrop(files.value);
      fileUrls := urls;
      if skeletonFile.None? || atlasFile.None? {
        errorMsg := MissingDocumentsMessage;
        return null;
      }
      readers := new Readers(skeletonFile.value, atlasFile.value, urls);
    }

    /**
     * Parses the skeleton text and runs `createSpineAnimation`; `a` stands for
     * what `JSON.parse` and the Spine runtime make of the two texts.
     */
    method Assemble(a: Assembly)
      requires Valid()
      modifies this
      ensures Valid()
      ensures State() == Assembled(old(State()), Center(), a)
      ensures fileUrls == old(fileUrls)
    {
      AssembledConsistent(State(), Center(), a);
      match a
      case MalformedSkeleton(m) =>
        errorMsg := JsonParseErrorPrefix + m;
      case RuntimeError(m) =>
        errorMsg := CreateErrorPrefix + m;
      case Built(sk) =>
        entity := Some(Entity(sk, Center(), 1.0, None));
        if |sk.animations| > 0 {
          var name := sk.animations[0];
          entity := Some(entity.value.(track := Some(name)));
          animationPlaying := true;
          availableAnimations := sk.animations;
          selectedAnimation := name;
        }
        spineLoaded := true;
    }

    /**
     * `readerJSON.onload` of the drop that created `readers`; `a` is what
     * parsing `text` and building the entity yield, and parsing an empty text
     * always fails.
     */
    method OnJsonLoad(readers: Readers, text: string, a: Assembly)
      requires Valid()
      requires text == "" ==> a.MalformedSkeleton?
      modifies this, readers
      ensures Valid()
      ensures readers.Slots() == Step(old(readers.Slots()), JsonLoaded(text)).gate
      ensures State() == if Step(old(readers.Slots()), JsonLoaded(text)).assemble
                         then Assembled(old(State()), Center(), a) else old(State())
      ensures fileUrls == old(fileUrls)
    {
      var assemble := readers.OnJsonLoad(text);
      if assemble {
        Assemble(a);
      }
    }

    /** `readerAtlas.onload` of the drop that created `readers`. */
    method OnAtlasLoad(readers: Readers, text: string, a: Assembly)
      requires Valid()
      modifies this, readers
      ensures Valid()
      ensures readers.Slots() == Step(old(readers.Slots()), AtlasLoaded(text)).gate
      ensures State() == if Step(old(readers.Slots()), AtlasLoaded(text)).assemble
                         then Assembled(old(State()), Center(), a) else old(State())
      ensures fileUrls == old(fileUrls)
    {
      var assemble := readers.OnAtlasLoad(text);
      if assemble {
        Assemble(a);
      }
    }

    /** `readerJSON.onerror`: only the message changes. */
    method OnJsonError()
      requires Valid()
      modifies this`errorMsg
      ensures Valid()
      ensures State() == old(State()).(errorMsg := JsonReadErrorMessage)
    {
      errorMsg := JsonReadErrorMessage;
    }

    /** `readerAtlas.onerror`: only the message changes. */
    method OnAtlasError()
      requires Valid()
      modifies this`errorMsg
      ensures Valid()
      ensures State() == old(State()).(errorMsg := AtlasReadErrorMessage)
    {
      errorMsg := AtlasReadErrorMessage;
    }

    /** `toggleAnimation`. */
    method ToggleAnimation()
      requires Valid()
      modifies this
      ensures Valid()
      ensures State() == Toggled(old(State()))
      ensures fileUrls == old(fileUrls)
    {
      ToggledConsistent(State());
      if entity.None? {
        return;
      }
      if animationPlaying {
        entity := Some(entity.value.(timeScale := 0.0));
        animationPlaying := false;
      } else {
        entity := Some(entity.value.(timeScale := 1.0));
        animationPlaying := true;
      }
    }

    /** `handleAnimationSelect`. */
    method HandleAnimationSelect(name: string)
      requires Valid()
      modifies this
      ensures Valid()
      ensures State() == AnimationSelected(old(State()), name)
      ensures fileUrls == old(fileUrls)
    {
      AnimationSelectedConsistent(State(), name);
      selectedAnimation := name;
      if entity.Some? {
        entity := Some(entity.value.(track := Some(name)));
      }
    }

    /** `addCircleToSlot`. */
    method AddCircleToSlot(slot: string)
      requires Valid()
      modifies this
      ensures Valid()
      ensures State() == CircleAdded(old(State()), slot)
      ensures fileUrls == old(fileUrls)
    {
      CircleAddedConsistent(State(), slot);
      if entity.None? {
        return;
      }
      if slot in circles {
        return;
      }
      circles := circles[slot := NewMarker()];
      addedSlots := addedSlots + [slot];
    }

    /** `removeCircleFromSlot`. */
    method RemoveCircleFromSlot(slot: string)
      requires Valid()
      modifies this
      ensures Valid()
      ensures State() == CircleRemoved(old(State()), slot)
      ensures fileUrls == old(fileUrls)
    {
      CircleRemovedConsistent(State(), slot);
      if entity.None? {
        return;
      }
      if slot in circles {
        circles := circles - {slot};
        addedSlots := Lists.FilterOut(addedSlots, slot);
      }
    }

    /**
     * `updateCircles`, once per frame; `pose` gives the current world position
     * of the bone of each slot that has one. A circle keyed by a name that is
     * not a slot of the entity is not moved, as `findSlot` finds nothing.
     */
    method UpdateCircles(pose: map<string, Point>)
      requires Valid()
      modifies this
      ensures Valid()
      ensures State() == Ticked(old(State()), pose)
      ensures fileUrls == old(fileUrls)
    {
      TickedConsistent(State(), pose);
      if entity.None? {
        return;
      }
      var origin := entity.value.position;
      var slots := entity.value.skeleton.slots;
      var moved := circles;
      var pending := circles.Keys;
      while pending != {}
        invariant pending <= circles.Keys
        invariant moved.Keys == circles.Keys
        invariant forall slot :: slot in circles ==>
          moved[slot] == if slot in pending || slot !in slots || slot !in pose then circles[slot]
                         else circles[slot].(position := Offset(origin, pose[slot]))
        decreases pending
      {
        var slot :| slot in pending;
        if slot in slots && slot in pose {
          moved := moved[slot := moved[slot].(position := Offset(origin, pose[slot]))];
        }
        pending := pending - {slot};
      }
      circles := moved;
    }
  }
}
