/**
 * The key-value store adapter (`getFromLocalStorage` / `saveToLocalStorage`
 * in assets/app.js, repeated in assets/admin.js): the browser's
 * persistent per-origin store, keys to JSON text, read and written through
 * wrappers that never throw.
 */
module Storage {
  import opened Js

  /**
   * A stored text as far as `JSON.parse` is concerned: the empty string,
   * text it rejects, or the serialisation of a value.
   */
  datatype Cell = Blank | Garbled | Encoded(value: Json)

  /**
   * What `getFromLocalStorage(key, default)` returns: the parsed value, or
   * the default when the key is absent, its text is empty (falsy) or it does
   * not parse.
   */
  function Read(cells: map<string, Cell>, key: string, default: Json): Json {
    if key in cells && cells[key].Encoded? then cells[key].value else default
  }

  /** A successful write is read back as written, and no other key is affected. */
  lemma ReadAfterWrite(cells: map<string, Cell>, key: string, v: Json, other: string, default: Json)
    ensures Read(cells[key := Encoded(v)], key, default) == v
    ensures other != key ==> Read(cells[key := Encoded(v)], other, default) == Read(cells, other, default)
  {
  }

  /** The default is returned exactly when the key holds no parseable value. */
  lemma ReadDefault(cells: map<string, Cell>, key: string, default: Json)
    ensures (key !in cells || cells[key] == Blank || cells[key] == Garbled)
            ==> Read(cells, key, default) == default
    ensures key in cells && cells[key].Encoded? ==> Read(cells, key, default) == cells[key].value
  {
  }

  class BrowserStorage {
    var cells: map<string, Cell>

    /**
     * Whether `localStorage.setItem` accepts a value under a key given the
     * current contents; it refuses when the quota is exceeded or storage
     * is disabled. The browser decides, so the model takes it as given.
     */
    const Accepts: (map<string, Cell>, string, Json) -> bool

    constructor (initial: map<string, Cell>, accepts: (map<string, Cell>, string, Json) -> bool)
      ensures cells == initial && Accepts == accepts
    {
      cells := initial;
      Accepts := accepts;
    }

    /** `getFromLocalStorage(key, default)`: reads, never throws, never writes. */
    method GetFromLocalStorage(key: string, default: Json) returns (v: Json)
      ensures key in cells && cells[key].Encoded? ==> v == cells[key].value
      ensures key !in cells || !cells[key].Encoded? ==> v == default
      ensures v == Read(cells, key, default)
    {
      if key !in cells {
        return default;
      }
      match cells[key]
      case Blank => v := default;
      case Garbled => v := default;   // JSON.parse threw; the catch returns the default
      case Encoded(value) => v := value;
    }

    /**
     * `saveToLocalStorage(key, data)`: true iff the browser took the write;
     * a refused write is reported as false and changes nothing.
     */
    method SaveToLocalStorage(key: string, data: Json) returns (ok: bool)
      modifies this
      ensures ok == old(Accepts(cells, key, data))
      ensures ok ==> cells == old(cells)[key := Encoded(data)]
      ensures !ok ==> cells == old(cells)
      ensures ok ==> Read(cells, key, Null) == data
    {
      ok := Accepts(cells, key, data);
      if ok {
        cells := cells[key := Encoded(data)];
      }
    }
  }
}
