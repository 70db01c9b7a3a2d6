/** The parsed `package.json` the detector reads, and the dependency map it builds from it. */
module Manifest {
  import opened Wrappers

  /** A parsed JSON object whose values are strings: its keys in the order the object
      lists them (the order `Object.keys` reports) and its entries. */
  datatype JsonObject = JsonObject(keys: seq<string>, entries: map<string, string>)

  /** What `JSON.parse` builds from an object: each key listed once, and the listed keys
      are exactly the keys that have an entry. */
  ghost predicate WellFormed(o: JsonObject) {
    && (forall i, j :: 0 <= i < j < |o.keys| ==> o.keys[i] != o.keys[j])
    && (forall k :: k in o.entries <==> k in o.keys)
  }

  /** The fields of `package.json` that the detector and the analysis route read; a field
      the file does not have is `None`. */
  datatype PackageJson = PackageJson(
    name: Option<string>,
    version: Option<string>,
    scripts: Option<JsonObject>,
    dependencies: Option<JsonObject>,
    devDependencies: Option<JsonObject>)

  /** The entries of an optional object; spreading `undefined` adds nothing. */
  function Entries(o: Option<JsonObject>): (m: map<string, string>)
    ensures o.None? ==> m == map[]
  {
    if o.Some? then o.value.entries else map[]
  }

  /** `{...dependencies, ...devDependencies}`: one lookup space holding every runtime and
      every development dependency, where a development entry wins over a runtime entry of
      the same name. */
  function MergedDependencies(pj: PackageJson): (deps: map<string, string>)
    ensures deps.Keys == Entries(pj.dependencies).Keys + Entries(pj.devDependencies).Keys
    ensures forall k :: k in Entries(pj.devDependencies) ==> deps[k] == Entries(pj.devDependencies)[k]
    ensures forall k :: k in Entries(pj.dependencies) && k !in Entries(pj.devDependencies) ==>
      deps[k] == Entries(pj.dependencies)[k]
  {
    Entries(pj.dependencies) + Entries(pj.devDependencies)
  }

  /** `deps[key]` is truthy: the key is present and its version string is not empty. */
  predicate IsTruthy(deps: map<string, string>, key: string) {
    key in deps && deps[key] != ""
  }
}
