/** `fast_decimation.py`: one entry point that validates the object, clamps the ratio and routes
    to trimesh when that library is available (or asked for) and to the modifier pass of
    bmesh_decimation.py otherwise. */
module FastDecimation {
  import opened Wrappers
  import opened Scene
  import opened Geometry
  import opened BMeshOps
  import BmeshDecimation
  import TrimeshDecimation
  import Decimation

  /** The method actually run: 'auto' becomes 'trimesh' exactly when the library is available
      and 'bmesh' otherwise; any other name is kept. */
  function ResolveMethod(m: string, available: bool): (r: string)
    ensures m == "auto" ==> (r == "trimesh" <==> available) && (r == "bmesh" <==> !available)
    ensures m != "auto" ==> r == m
  {
    if m == "auto" then (if available then "trimesh" else "bmesh") else m
  }

  const NotInstalled := "Trimesh library not installed"

  /** `fast_decimate_object` on the scene state: `(success, faces_before, faces_after,
      error_details)`. Validation failure returns (False, 0, 0, its message) before anything
      else. With `n` the object's face count, a request for trimesh without the library
      returns (False, n, n, "Trimesh library not installed") and an unknown method (False, n,
      n, "Unknown decimation method: '<m>'"), both with nothing changed. Otherwise the chosen
      pass runs at the ratio clamped into [0, 1], and `error_details` is empty exactly when it
      succeeded. */
  function FastDecimateSpec(st: ViewMeshes, o: Option<Obj>, ratio: real, m: string, aggression: int, preserveBorder: bool,
                            lib: TrimeshDecimation.TrimeshLib, k: Kernels): (r: (ViewMeshes, (bool, nat, nat, string)))
    ensures !Decimation.ValidateMesh(o, st.meshes).0 ==> r == (st, (false, 0, 0, Decimation.ValidateMesh(o, st.meshes).1))
    ensures Decimation.ValidateMesh(o, st.meshes).0 ==>
              var n := FaceCount(st.meshes[o.value.data.value]);
              var chosen := ResolveMethod(m, lib.available);
              (chosen == "trimesh" && !lib.available ==> r == (st, (false, n, n, NotInstalled)))
              && (chosen != "trimesh" && chosen != "bmesh" ==> r == (st, (false, n, n, "Unknown decimation method: '" + m + "'")))
              && (chosen == "trimesh" && lib.available ==>
                    var t := TrimeshDecimation.DecimateTrimeshSpec(st.meshes, o, ClampRatio(ratio), aggression, preserveBorder, lib);
                    r.0 == st.(meshes := t.0) && (r.1.0, r.1.1, r.1.2) == t.1)
              && (chosen == "bmesh" ==>
                    var b := BmeshDecimation.DecimateBmeshSpec(st, o, ClampRatio(ratio), true, k);
                    r.0 == b.0 && (r.1.0, r.1.1, r.1.2) == b.1)
              && (chosen == "trimesh" || chosen == "bmesh" ==> (r.1.3 == "" <==> r.1.0))
    ensures r.1.0 ==> r.1.3 == ""
    ensures r.0.meshes.Keys == st.meshes.Keys
  {
    var (valid, msg) := Decimation.ValidateMesh(o, st.meshes);
    if !valid then (st, (false, 0, 0, msg))
    else
      var n := FaceCount(st.meshes[o.value.data.value]);
      var clamped := ClampRatio(ratio);
      var chosen := ResolveMethod(m, lib.available);
      if chosen == "trimesh" then
        if !lib.available then (st, (false, n, n, NotInstalled))
        else
          var (meshes, (ok, before, after)) := TrimeshDecimation.DecimateTrimeshSpec(st.meshes, o, clamped, aggression, preserveBorder, lib);
          (st.(meshes := meshes), (ok, before, after, if ok then "" else Decimation.GenericFailure))
      else if chosen == "bmesh" then
        var (st2, (ok, before, after)) := BmeshDecimation.DecimateBmeshSpec(st, o, clamped, true, k);
        (st2, (ok, before, after, if ok then "" else Decimation.GenericFailure))
      else (st, (false, n, n, "Unknown decimation method: '" + chosen + "'"))
  }

  /** 'auto' behaves exactly as naming the method it resolves to. */
  lemma AutoIsResolved(st: ViewMeshes, o: Option<Obj>, ratio: real, aggression: int, preserveBorder: bool,
                       lib: TrimeshDecimation.TrimeshLib, k: Kernels)
    ensures FastDecimateSpec(st, o, ratio, "auto", aggression, preserveBorder, lib, k)
            == FastDecimateSpec(st, o, ratio, if lib.available then "trimesh" else "bmesh", aggression, preserveBorder, lib, k)
  {
  }

  /** `fast_decimate_object`. */
  method FastDecimateObject(o: Option<Obj>, ratio: real, m: string, aggression: int, preserveBorder: bool,
                            lib: TrimeshDecimation.TrimeshLib, k: Kernels, stack: ModifierStack,
                            view: ViewState, vis: Visibility, store: GeometryStore)
    returns (ok: bool, facesBefore: nat, facesAfter: nat, errorDetails: string)
    modifies stack, view, store
    ensures stack.mods == old(stack.mods)
    ensures (StateOf(view, vis, store), (ok, facesBefore, facesAfter, errorDetails))
            == FastDecimateSpec(old(StateOf(view, vis, store)), o, ratio, m, aggression, preserveBorder, lib, k)
  {
    var valid, msg := Decimation.ValidateMesh(o, store.meshes).0, Decimation.ValidateMesh(o, store.meshes).1;
    if !valid {
      return false, 0, 0, msg;
    }
    facesBefore := FaceCount(store.meshes[o.value.data.value]);
    var clamped := ClampRatio(ratio);
    var chosen := ResolveMethod(m, lib.available);
    if chosen == "trimesh" {
      if !lib.available {
        return false, facesBefore, facesBefore, NotInstalled;
      }
      ok, facesBefore, facesAfter := TrimeshDecimation.DecimateTrimesh(o, clamped, aggression, preserveBorder, lib, store);
    } else if chosen == "bmesh" {
      ok, facesBefore, facesAfter := BmeshDecimation.DecimateBmesh(o, clamped, true, k, stack, view, vis, store);
    } else {
      return false, facesBefore, facesBefore, "Unknown decimation method: '" + chosen + "'";
    }
    errorDetails := if ok then "" else Decimation.GenericFailure;
  }

  /** `get_available_decimation_methods`: 'bmesh' always comes last, after 'trimesh' when the
      library is available. */
  function AvailableMethods(available: bool): (r: seq<string>)
    ensures |r| > 0 && r[|r| - 1] == "bmesh"
    ensures r[0] == "trimesh" <==> available
    ensures "trimesh" in r <==> available
  {
    (if available then ["trimesh"] else []) + ["bmesh"]
  }

  datatype DecimationInfo = DecimationInfo(availableMethods: seq<string>, trimeshAvailable: bool, trimeshVersion: string,
                                           bmeshAvailable: bool, recommendedMethod: string)

  /** `get_decimation_info`: the recommended method is the first available one, trimesh
      exactly when it is installed. */
  function GetDecimationInfo(lib: TrimeshDecimation.TrimeshLib): (r: DecimationInfo)
    ensures r.availableMethods == AvailableMethods(lib.available)
    ensures r.recommendedMethod == r.availableMethods[0]
    ensures r.recommendedMethod == "trimesh" <==> r.trimeshAvailable
    ensures r.trimeshAvailable == lib.available && r.bmeshAvailable
    ensures r.trimeshVersion == TrimeshDecimation.GetVersion(lib)
  {
    DecimationInfo(AvailableMethods(lib.available), lib.available, TrimeshDecimation.GetVersion(lib), true,
                   if lib.available then "trimesh" else "bmesh")
  }
}
