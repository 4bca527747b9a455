/** `utils/context_managers.py`: `preserve_blender_state` records the selection by name before
    its body and, on the way out whether the body returned or raised, registers a one-shot
    timer that restores it at 0.2 s; `temp_image_manager` hands out an image copy and removes
    it afterwards if it still exists. */
module ContextManagers {
  import opened Wrappers
  import opened Scene
  import opened Timers

  /** The names `preserve_blender_state` keeps: the selected objects and the active one. */
  datatype Saved = Saved(selected: seq<string>, active: Option<string>)

  /** Entering `preserve_blender_state`: the names are read before the body runs, so what the
      body does to the selection cannot change them. */
  method CaptureState(view: ViewState) returns (saved: Saved)
    ensures saved.selected == view.selected && saved.active == view.active
  {
    saved := Saved(view.selected, view.active);
  }

  /** The restore registration made in the `finally` clause. */
  function RestoreTimer(saved: Saved): (t: Timer)
    ensures t.delayMs == RestoreDelayMs && t.delayMs > CleanupDelayMs
    ensures t.callback.RestoreSelection? && t.callback.selected == saved.selected && t.callback.active == saved.active
  {
    Timer(RestoreDelayMs, RestoreSelection(saved.selected, saved.active))
  }

  /** Leaving `preserve_blender_state`: the body's outcome (a value or a raised error) passes
      through unchanged, and in both cases the deferred restore is registered. */
  method ReleaseState<T>(saved: Saved, body: Result<T>, timers: TimerQueue) returns (r: Result<T>)
    modifies timers
    ensures r == body
    ensures timers.pending == old(timers.pending) + [RestoreTimer(saved)]
  {
    timers.Register(RestoreTimer(saved));
    r := body;
  }

  /** The names the deferred restore can select: those still in `bpy.data.objects` and in the
      view layer. */
  function Restorable(objects: set<string>, layer: set<string>): (r: set<string>)
    ensures forall x :: x in r <==> x in objects && x in layer
  {
    objects * layer
  }

  /** Whether the deferred restore makes `active` the active object: a non-empty name of an
      object that still exists and is in the view layer. */
  predicate ResetsActive(active: Option<string>, objects: set<string>, layer: set<string>) {
    active.Some? && active.value != "" && active.value in objects && active.value in layer
  }

  /** `_deferred_restore_selection`: deselect everything, select each saved name that still
      names an object in the view layer, and make the saved active object active again when
      it qualifies; otherwise the active object stays as it is. The callback returns None, so
      the timer does not repeat. */
  method DeferredRestoreSelection(selected: seq<string>, active: Option<string>, objects: set<string>,
                                  layer: set<string>, view: ViewState) returns (again: Option<real>)
    modifies view
    ensures again == None
    ensures forall x :: x in view.selected <==> x in selected && x in objects && x in layer
    ensures view.selected == Present(selected, Restorable(objects, layer))
    ensures ResetsActive(active, objects, layer) ==> view.active == active
    ensures !ResetsActive(active, objects, layer) ==> view.active == old(view.active)
  {
    view.selected := [];
    var restored := Reselect(selected, Restorable(objects, layer));
    view.selected := restored;
    if active.Some? && active.value != "" && active.value in objects && active.value in layer {
      view.active := active;
    }
    return None;
  }

  /** When every saved object is still in the view layer, the deferred restore gives back the
      saved selection exactly, in its order. */
  lemma RestoreUndisturbed(selected: seq<string>, objects: set<string>, layer: set<string>)
    requires forall x :: x in selected ==> x in objects && x in layer
    ensures Present(selected, Restorable(objects, layer)) == selected
  {
    PresentAll(selected, Restorable(objects, layer));
  }

  /** `bpy.data.images`, by name. */
  class ImageLibrary {
    var images: set<string>

    constructor(images: set<string>)
      ensures this.images == images
    {
      this.images := images;
    }

    /** Entering `temp_image_manager`: `original.copy()` adds a copy under a new name, unless
        copying raised, in which case there is no copy. */
    method EnterTempImage(original: string, copyRaises: bool) returns (temp: Option<string>)
      modifies this
      ensures copyRaises ==> temp == None && images == old(images)
      ensures !copyRaises ==> temp == Some(FreshName(original, old(images))) && images == old(images) + {temp.value}
      ensures temp.Some? ==> temp.value !in old(images)
    {
      if copyRaises {
        return None;
      }
      var name := FreshName(original, images);
      images := images + {name};
      return Some(name);
    }

    /** Leaving `temp_image_manager`: the copy is removed when it is still in
        `bpy.data.images`. A copy the body already removed cannot have its `name` read, so the
        exit raises `ReferenceError` then (`raised`), and nothing changes. Without a copy
        nothing happens. */
    method ExitTempImage(temp: Option<string>) returns (raised: bool)
      modifies this
      ensures raised <==> temp.Some? && temp.value !in old(images)
      ensures temp.Some? && temp.value in old(images) ==> images == old(images) - {temp.value}
      ensures temp.None? || temp.value !in old(images) ==> images == old(images)
    {
      raised := false;
      if temp.Some? {
        if temp.value !in images {
          return true;
        }
        images := images - {temp.value};
      }
    }
  }

  lemma TempImageRoundTrip(images: set<string>, original: string)
    ensures (images + {FreshName(original, images)}) - {FreshName(original, images)} == images
  {
  }
}
