/**
 * One configuration file's worth of settings ("hdfs-site", "core-site"):
 * a map from property key to property value. An absent key is a state of
 * its own, distinct from a key mapped to the empty string.
 */
module SiteProperties {

  type Namespace = map<string, string>

  datatype Option<T> = None | Some(value: T)

  /** `ns[key]` guarded by `except KeyError`: absence becomes None. */
  function Lookup(ns: Namespace, key: string): (r: Option<string>)
    ensures r.Some? <==> key in ns
    ensures r.Some? ==> r.value == ns[key]
  {
    if key in ns then Some(ns[key]) else None
  }

  /** `ns[key]` guarded by `except KeyError`, falling back to `default`. */
  function GetOrDefault(ns: Namespace, key: string, default: string): (v: string)
    ensures key in ns ==> v == ns[key]
    ensures key !in ns ==> v == default
  {
    match Lookup(ns, key)
    case Some(x) => x
    case None => default
  }
}
