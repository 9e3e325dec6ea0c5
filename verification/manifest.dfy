/** The per-source manifest: `{last_updated, source, documents}` with one entry
    `{url, hash, last_fetched}` per document name. */
module Manifests {
  import opened Results

  /** One document record. `hash` is `None` when a loaded record has no hash. */
  datatype Entry = Entry(url: string, hash: Option<string>, lastFetched: string)

  datatype Manifest = Manifest(
    lastUpdated: Option<string>,
    source: Option<string>,
    documents: map<string, Entry>)

  /** What `load_manifest` returns when the file does not exist. */
  const Empty := Manifest(None, None, map[])

  /** `manifest['documents'].get(name, {}).get('hash')`. */
  function StoredHash(documents: map<string, Entry>, name: string): (h: Option<string>)
    ensures name in documents ==> h == documents[name].hash
    ensures name !in documents ==> h.None?
  {
    if name in documents then documents[name].hash else None
  }
}
