/** The browser's localStorage object. */
module WebStorage {
  import opened Wrappers

  /** The error code of a write that exceeds the quota. */
  const QUOTA_EXCEEDED := 22

  class LocalStorage {
    var items: map<string, string>
    const fits: string -> bool
    const failure: Option<int>

    /** `fits` says which texts are within the quota; `failure`, when present, is another
        error that every write reports. */
    constructor (fits: string -> bool, failure: Option<int>)
      ensures items == map[] && this.fits == fits && this.failure == failure
    {
      items := map[];
      this.fits := fits;
      this.failure := failure;
    }

    method SetItem(key: string, text: string) returns (error: Option<int>)
      modifies this
      ensures error == WriteError(text)
      ensures items == if error.None? then old(items)[key := text] else old(items)
    {
      error := WriteError(text);
      if error.None? {
        items := items[key := text];
      }
    }

    function WriteError(text: string): Option<int> {
      if failure.Some? then failure
      else if fits(text) then None
      else Some(QUOTA_EXCEEDED)
    }
  }
}
