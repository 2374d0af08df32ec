/**
  The two pieces of browser state the theme code shares: the class list of
  the document's root element and the page's `localStorage`. A page load
  starts with a root element without classes and the storage left by the
  previous visit.
*/
module Browser {
  import opened Wrappers

  /** `localStorage.getItem(key)`: the stored string, or `null`. */
  function GetItem(storage: map<string, string>, key: string): (r: Option<string>)
    ensures r.Some? <==> key in storage
    ensures r.Some? ==> r.value == storage[key]
  {
    if key in storage then Some(storage[key]) else None
  }

  class Document {
    var rootClasses: set<string>
    var storage: map<string, string>

    /** A fresh page load over the storage of earlier visits. */
    constructor (storage: map<string, string>)
      ensures rootClasses == {} && this.storage == storage
    {
      rootClasses := {};
      this.storage := storage;
    }
  }
}
