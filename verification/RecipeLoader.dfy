/** Fetching the objects of a recipe capture, as the `load` closure of `materializeRecipeCapture`
    (worker/recipe_capture.go) does: once each, within a transfer budget, re-checked on every use. */
module RecipeLoader {
  import opened Hexadecimal
  import opened Values

  type Bytes = string

  datatype Ref = Ref(sha256: string, size: int)

  const MAX_MANIFEST := 0x8_0000
  const MAX_COMMIT := 0x2_0000
  const MAX_TREE := 0x10_0000
  const MAX_PROOF := 0x40_0000
  const MAX_RECIPE_TREE := 0x200_0000
  const BUDGET := MAX_RECIPE_TREE + MAX_PROOF + MAX_MANIFEST
  const EMPTY_SHA := "e3b0c44298fc1c149afbf4c8996fb92427ae41e4649b934ca495991b7852b855"

  /** What can be fetched under each identity, and SHA-256 in hex. */
  datatype Store = Store(fetch: string -> Option<Bytes>, sha256: Bytes -> string)

  predicate RefOk(ref: Ref, max: int) {
    IsSha256(ref.sha256) && 0 <= ref.size <= max && (ref.size == 0 <==> ref.sha256 == EMPTY_SHA)
  }

  /** The object is there, whole and unaltered. */
  predicate Loads(store: Store, ref: Ref, max: int) {
    && RefOk(ref, max)
    && (ref.size > 0 ==>
          var data := store.fetch(ref.sha256);
          data.Some? && |data.value| == ref.size && store.sha256(data.value) == ref.sha256)
  }

  function Data(store: Store, ref: Ref): Bytes {
    if ref.size == 0 || store.fetch(ref.sha256).None? then "" else store.fetch(ref.sha256).value
  }

  datatype Loaded = Loaded(data: Bytes) | Refused | OverBudget

  class Loader {
    const store: Store
    /** Sizes of the objects transferred so far, and their files. */
    var seen: map<string, int>
    var files: map<string, Bytes>
    var transferred: int

    constructor (store: Store)
      ensures this.store == store && Valid() && transferred == 0
    {
      this.store, seen, files, transferred := store, map[], map[], 0;
    }

    ghost predicate Valid()
      reads this
    {
      && seen.Keys == files.Keys
      && forall sha :: sha in seen ==> store.fetch(sha) == Some(files[sha]) && |files[sha]| == seen[sha]
    }

    predicate Held(ref: Ref)
      reads this
    {
      ref.size == 0 || (ref.sha256 in seen && seen[ref.sha256] == ref.size)
    }

    /** `transferred` counts an object the first time only. */
    method Load(ref: Ref, max: int) returns (r: Loaded)
      requires Valid()
      modifies this
      ensures r.Loaded? ==> Valid() && Loads(store, ref, max) && r.data == Data(store, ref) && Held(ref)
      ensures r.Loaded? ==>
                transferred <= old(transferred) + ref.size && (old(Held(ref)) ==> transferred == old(transferred))
      ensures r.Loaded? ==> forall other :: old(Held(other)) ==> Held(other)
      ensures r.Refused? ==> !Loads(store, ref, max)
      ensures r.OverBudget? ==> old(transferred) + ref.size > BUDGET && !old(Held(ref)) && RefOk(ref, max)
    {
      if !IsSha256(ref.sha256) || ref.size < 0 || ref.size > max || (ref.size == 0) != (ref.sha256 == EMPTY_SHA) {
        return Refused;
      }
      if ref.size == 0 {
        return Loaded("");
      }
      if ref.sha256 in seen {
        if seen[ref.sha256] != ref.size {
          return Refused;
        }
      } else {
        transferred := transferred + ref.size;
        if transferred > BUDGET {
          return OverBudget;
        }
        var fetched := store.fetch(ref.sha256);
        if fetched.None? {
          return Refused;
        }
        files := files[ref.sha256 := fetched.value];
        seen := seen[ref.sha256 := ref.size];
      }
      var data := files[ref.sha256];
      if |data| != ref.size || store.sha256(data) != ref.sha256 {
        return Refused;
      }
      return Loaded(data);
    }
  }
}
