# Spine viewer asset pipeline and overlay state

A model of the logic in the `App` component of a browser-based Spine
animation viewer. The user drops a bundle of files onto the page. The
component:

- indexes the files by name and mints an object URL for each;
- picks the skeleton document (a name ending in `.json`, ignoring case) and
  the atlas document (`.atlas`), taking the last match in key order;
- reads both as text, and assembles the Spine entity once the second read
  completes;
- resolves each atlas page name to an image URL, exactly first and then
  ignoring case.

Once an entity is on screen, the user can pause and resume it, choose an
animation, and attach red circles to skeleton slots. Every frame moves the
circles onto their slots' bones. A text filter narrows the slot list.

The model is split into modules:

| module | what it holds |
|---|---|
| `Text` | ASCII `toLowerCase`, `endsWith` and `includes`. |
| `Lists` | `Array.prototype.filter(n => n !== x)` on lists of names. |
| `Table` | A JavaScript object used as a dictionary: its keys in insertion order and a map of values. |
| `TextureResolver` | `getTextureForLine`. |
| `DropBundle` | The validation part of `onDrop`: the `filesMap` and `fileURLs` loops and the document search. |
| `ReaderJoin` | The two reader callbacks, as a state machine over the two captured text slots, and the `Readers` class that holds them. |
| `ViewerState` | The component's state as a value, one function per handler, the invariant `Consistent`, and the lemmas about them. |
| `Viewer` | The class `App`, whose fields are that state. Each handler is a method proved to leave `State()` equal to the matching `ViewerState` function of the old state. |

## Model

| member | source | states |
|---|---|---|
| Text.ToLower | src/App.jsx:290 | Lower-casing keeps the length and lower-cases each character (ASCII letters only). |
| Text.Includes | src/App.jsx:474-476 | `s.includes(sub)` holds exactly when some position of `s` starts a copy of `sub`. |
| Text.IncludesEmpty | src/App.jsx:474-476 | Every name includes the empty filter. |
| Text.AtlasIsNotJson | src/App.jsx:291-294 | No lower-cased name ends with both ".atlas" and ".json", so the `else if` never hides an atlas. |
| Lists.FilterOut | src/App.jsx:466 | `prev.filter(name => name !== slotName)` keeps exactly the other names, never grows, and keeps a duplicate-free list duplicate-free. |
| Lists.FilterOutAbsent | src/App.jsx:466 | Filtering out a name that is not listed changes nothing. |
| Lists.FilterOutKeepsOrder | src/App.jsx:466 | The filter keeps the other names in their order: a single name is kept unless it is the removed one, and filtering a concatenation concatenates the filtered parts. |
| Lists.FilterOutAppended | src/App.jsx:456-466 | Filtering out a name just appended gives the same as filtering the list before the append. |
| Table.Put | src/App.jsx:279 | Assigning `obj[k] = v` keeps the key list duplicate-free, appends `k` only when it is new, stores `v` under `k`, and leaves every other key alone. |
| TextureResolver.FirstFolded | src/App.jsx:358-363 | The loop over keys finds the first key, in iteration order, whose lower-cased form equals the lower-cased page name, or reports that none does. |
| TextureResolver.GetTextureForLine | src/App.jsx:354-365 | A present key with a truthy URL gives that URL. Otherwise the result is none exactly when no key matches ignoring case, and else it is the first key that matches ignoring case. |
| TextureResolver.ResolvesIgnoringCase | src/App.jsx:354-365 | If exactly one image name equals the page name ignoring case, the page resolves to that image whatever the case. |
| TextureResolver.HeroExample | src/App.jsx:354-365 | Image "Hero.png" resolves page "hero.png". |
| TextureResolver.VillainExample | src/App.jsx:354-365 | Page "Villain.png" resolves to nothing against the image "Hero.png". |
| DropBundle.Indexed | src/App.jsx:277-280 | The file map built by the name-keyed assignments is a well-formed dictionary. |
| DropBundle.LastNamedAt | src/App.jsx:277-280 | Finds the last dropped file with a given name, or reports that none has it. |
| DropBundle.IndexedByName | src/App.jsx:277-280 | The file map has a key for each dropped name and no other. The file stored under a name is the last dropped file of that name. |
| DropBundle.BuildFilesMap | src/App.jsx:277-280 | The `filesMap` loop yields `Indexed(files)`. |
| DropBundle.BuildFileUrls | src/App.jsx:281-284 | The `fileURLs` loop yields a dictionary with the same keys in the same order, holding each file's object URL. |
| DropBundle.LastWithSuffixAt | src/App.jsx:289-296 | Finds the last name, in iteration order, whose lower-cased form ends with the suffix, or reports that none does. |
| DropBundle.LastWithSuffix | src/App.jsx:289-296 | The chosen name is one of the keys and ends with the suffix when lower-cased. It is absent exactly when no name has the suffix. |
| DropBundle.LastWithSuffixStep | src/App.jsx:289-296 | One more loop iteration either takes the new name, when it has the suffix, or keeps the earlier choice. |
| DropBundle.FindDocuments | src/App.jsx:287-296 | `jsonFileName` and `atlasFileName` end as the last keys ending in ".json" and ".atlas", ignoring case. |
| DropBundle.DocumentFound | src/App.jsx:289-296 | A document is found exactly when some dropped name has the suffix, and it is a dropped name. |
| DropBundle.Verdict | src/App.jsx:271-275 | An absent or empty file list, and only such a list, is refused as "files not found". |
| DropBundle.VerdictMeaning | src/App.jsx:297-300 | A non-empty list is refused as "required files missing" exactly when it lacks a ".json" name or an ".atlas" name. An accepted list names two dropped files with those suffixes. |
| DropBundle.ChosenFileMeaning | src/App.jsx:297-342 | The file read as a document exists exactly when some name has the suffix. It is the last dropped file bearing the chosen name. |
| DropBundle.PrepareDrop | src/App.jsx:277-300 | After the empty check, `fileURLs` maps each dropped name to its object URL. Two documents are found exactly when the drop is accepted, and they are the chosen files. |
| ReaderJoin.RunHoldsTexts | src/App.jsx:304-325 | After any sequence of completions, the two slots hold the texts last delivered by each reader. A non-empty slot means that reader has delivered. |
| ReaderJoin.NoAssemblyWithoutBothReads | src/App.jsx:307-339 | Until both readers have delivered a text, no completion assembles. This includes the first completion and every read error. |
| ReaderJoin.AssemblesAtMostOnce | src/App.jsx:307-335 | When each reader delivers at most once, assembly runs at most once, and only after both have delivered, seeing both texts. |
| ReaderJoin.AssemblesOnceWhenBothNonEmpty | src/App.jsx:307-335 | When each reader delivers once with a non-empty text, in either order and among any read errors, assembly runs exactly once, on both texts. |
| ReaderJoin.BothOrders | src/App.jsx:307-335 | In each order, the second completion assembles exactly when the text that arrived first is non-empty. |
| ReaderJoin.Readers.constructor | src/App.jsx:302-305 | A new pair of readers holds the two chosen files and `fileURLs`, with both text slots "". |
| ReaderJoin.Readers.OnJsonLoad | src/App.jsx:307-309 | Stores the skeleton text, and asks for assembly when the atlas slot is already truthy. |
| ReaderJoin.Readers.OnAtlasLoad | src/App.jsx:324-326 | Stores the atlas text, and asks for assembly when the skeleton slot is already truthy. |
| ViewerState.FilterSlots | src/App.jsx:474-476 | Keeps exactly the slot names whose lower-cased form includes the needle, and never more names than given. |
| ViewerState.FilterSlotsOne | src/App.jsx:474-476 | A single slot name is listed exactly when its lower-cased form includes the needle. |
| ViewerState.FilterSlotsKeepsOrder | src/App.jsx:474-476 | The slot filter keeps order: filtering a concatenation concatenates the filtered parts. |
| ViewerState.FilteredSlotNamesKeepOrder | src/App.jsx:470-477 | The listed names follow the skeleton's slot order: for slots `xs` then `ys`, the list is the matches in `xs` followed by the matches in `ys`. |
| ViewerState.FilteredSlotNames | src/App.jsx:470-477 | Without an entity no slot is listed. With one, a name is listed exactly when it is a slot of its skeleton that includes the filter, ignoring case. |
| ViewerState.ClearedConsistent | src/App.jsx:249-269 | The state left by the teardown at the start of a drop is consistent. |
| ViewerState.AssembledConsistent | src/App.jsx:400-416 | Assembly, successful or not, keeps the state consistent. |
| ViewerState.ToggledConsistent | src/App.jsx:420-430 | Toggling keeps the state consistent. |
| ViewerState.AnimationSelectedConsistent | src/App.jsx:433-439 | Selecting an animation keeps the state consistent. |
| ViewerState.CircleAddedConsistent | src/App.jsx:443-457 | Attaching keeps `addedSlots` duplicate-free, with the same names as the circle index. |
| ViewerState.CircleRemovedConsistent | src/App.jsx:459-468 | Detaching keeps `addedSlots` duplicate-free, with the same names as the circle index. |
| ViewerState.TickedConsistent | src/App.jsx:217-228 | A frame update keeps the state consistent. |
| ViewerState.AssemblyStartsFirstAnimation | src/App.jsx:400-411 | A successful assembly with animations does four things. It installs the entity at the centre, looping the first animation at time scale 1. It selects that animation. It marks the entity playing and loaded. It lists every animation name in order. |
| ViewerState.FailedAssemblyChangesOnlyMessage | src/App.jsx:313-416 | A failed parse or build changes only the error message, which is the matching prefix followed by the error's message. |
| ViewerState.ToggleFlipsPlaying | src/App.jsx:420-430 | With an entity, toggling flips "playing". It sets the time scale to 0 on pause and to 1 on resume. |
| ViewerState.PauseResumeRestores | src/App.jsx:420-430 | Pausing a playing entity and then resuming it restores the state exactly. |
| ViewerState.AttachAddsOneCircle | src/App.jsx:443-457 | Attaching to a slot without a circle adds exactly one red circle of radius 10 under that slot, and appends the slot to `addedSlots`. |
| ViewerState.AttachIdempotent | src/App.jsx:445 | Attaching twice is the same as attaching once. |
| ViewerState.DetachUnattachedIsNoop | src/App.jsx:461-462 | Detaching a slot without a circle changes nothing. |
| ViewerState.DetachRemovesSlot | src/App.jsx:459-468 | Detaching an attached slot deletes exactly its key and removes its name from `addedSlots`. |
| ViewerState.AttachThenDetachRestores | src/App.jsx:443-468 | Attaching a new slot and then detaching it restores the index, the list and everything else. |
| ViewerState.TickMovesOnlyPositions | src/App.jsx:217-228 | A frame keeps every key and each circle's look. A circle whose name is a slot of the entity with a bone in this frame moves to the entity position plus the bone's world position; every other circle, including one keyed by a name that is not a slot, stays put. Nothing else changes. |
| ViewerState.EmptyFilterKeepsAll | src/App.jsx:471-477 | An empty filter lists every slot, in order. |
| Viewer.App.constructor | src/App.jsx:13-30 | The component starts with no entity, no circles, no animations, not playing, not loaded, with no message, and consistent. |
| Viewer.App.Drop | src/App.jsx:248-300 | The teardown empties everything whatever came before. It then shows "files not found" or "required files missing", or no message when the drop is accepted. Readers start exactly when it is accepted, on the chosen skeleton and atlas files, with `fileURLs` built from the drop. |
| Viewer.App.Assemble | src/App.jsx:350-417 | `createSpineAnimation` leaves exactly `Assembled` of the old state, centred on the screen, and keeps the state consistent. |
| Viewer.App.OnJsonLoad | src/App.jsx:307-318 | The skeleton reader's completion updates the slots as the join gate says, and assembles exactly when the gate says so; an empty skeleton text can only fail to parse. |
| Viewer.App.OnAtlasLoad | src/App.jsx:324-335 | The atlas reader's completion updates the slots as the join gate says, and assembles exactly when the gate says so. |
| Viewer.App.OnJsonError | src/App.jsx:319-322 | A skeleton read error only sets its message. |
| Viewer.App.OnAtlasError | src/App.jsx:336-339 | An atlas read error only sets its message. |
| Viewer.App.ToggleAnimation | src/App.jsx:420-430 | The state becomes `Toggled` of the old state, and stays consistent. |
| Viewer.App.HandleAnimationSelect | src/App.jsx:433-439 | Records the name and, with an entity, loops it on track 0. The state stays consistent. |
| Viewer.App.AddCircleToSlot | src/App.jsx:443-457 | The state becomes `CircleAdded` of the old state, and stays consistent. |
| Viewer.App.RemoveCircleFromSlot | src/App.jsx:459-468 | The state becomes `CircleRemoved` of the old state, and stays consistent. |
| Viewer.App.UpdateCircles | src/App.jsx:217-228 | The loop over the circle index leaves exactly `Ticked` of the old state, moving only circles whose slot exists and has a bone, and stays consistent. |

Behaviour of the code a reader might not expect:

- The reader callbacks test only the other slot's truthiness, never their own text.
  - An empty skeleton text that arrives after a non-empty atlas text still triggers assembly, which then fails to parse.
  - If the empty text arrives first, nothing is assembled and no message appears.
  - `ReaderJoin.BothOrders` states both cases.
- `handleAnimationSelect` records the choice and loops it on track 0, but sets neither "playing" nor the time scale.
  - After a pause, a newly selected animation stays paused while the button still reads "play".
- There is no load-generation counter.
  - A reader completion that belongs to an older drop can still assemble over a newer drop's state.
  - `Viewer.App.OnJsonLoad` and `Viewer.App.OnAtlasLoad` accept any `Readers` object, stale ones included.

## Left out

- The PIXI application, the canvas, `ResizeObserver`, `renderer.resize` and the ticker registration are rendering-surface I/O. `updateCircles` is modelled as one call per frame.
- `updateSpinePosition` (fit scale and pivot from the entity's bounds) is floating-point geometry of the rendering library. The entity's position is the screen centre that `createSpineAnimation` sets.
- `URL.createObjectURL` is browser I/O. Each dropped file carries the URL it would mint.
- `FileReader` I/O is not modelled. Reads arrive as completion events in any order.
- `BaseTexture.from` is a library call. A texture is the URL it is built from.
- The Spine runtime (`TextureAtlas`, `AtlasAttachmentLoader`, `SkeletonJson`, `new Spine`, `state.setAnimation`, `getLocalBounds`) and `JSON.parse` are modelled only through their outcome: a skeleton (slot names and animation names), or an error with a message.
  - The texture callback passed to `TextureAtlas` is therefore not connected to `GetTextureForLine` in the model.
- `modifyAtlasText` returns its argument unchanged. The atlas text reaches the runtime as read.
- The debug drawing flags, the scale slider, JSX rendering and the style tables are presentation only.
- `console.error` logging is left out.
- The scene graph (`addChild`, `removeChild`, `destroy`) is left out. A circle is a value in the index, and the entity is a value in the state.
- `createSpineAnimation` returns early when the PIXI application is missing. The model assumes the application exists.
- React state updates are applied immediately and in order. The batching and re-rendering of `useState` are not modelled.
- Text.ToLower: folds the ASCII letters only. JavaScript's `toLowerCase` also folds other Unicode letters.
- Table.Put: keys iterate in insertion order. JavaScript visits integer-like keys first, in numeric order, and a file named like an `Object.prototype` member is not special-cased.
- GetTextureForLine: `fileURLs[line]` also sees inherited `Object.prototype` members, so a page named "constructor" or "toString" finds a truthy function in the source; the model sees only the dropped names.
- AddCircleToSlot, RemoveCircleFromSlot: `attachedCirclesRef.current[slotName]` also sees inherited `Object.prototype` members. In the source, a slot named "constructor" or "toString" is never attached (the early return), and detaching it throws on `destroy`; the model attaches and detaches such a slot like any other (`CircleAdded`, `CircleRemoved`).
- Coordinates and time scales are exact reals: IEEE-754 double rounding in the additions of `updateCircles` and the halving of the screen size is not modelled.
