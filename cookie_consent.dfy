/**
 * The cookie-consent banner: shown on page load unless consent is recorded in
 * the browser's local storage; accepting records consent and hides it.
 */
module CookieConsent {
  import opened ClassList

  const CONSENT_KEY := "skyvex_cookie_consent_given"
  const CONSENT_VALUE := "true"
  const VISIBLE := "visible"

  /** The page's local storage: string keys to string values. */
  type Storage = map<string, string>

  /**
   * `localStorage.getItem(key)` is truthy: the key is stored and its value is
   * not the empty string (a stored `""` is falsy and counts as no consent).
   */
  predicate ConsentGiven(storage: Storage): (b: bool)
    ensures b ==> CONSENT_KEY in storage
    ensures CONSENT_KEY in storage && storage[CONSENT_KEY] == "" ==> !b
    ensures CONSENT_KEY in storage && |storage[CONSENT_KEY]| > 0 ==> b
  {
    CONSENT_KEY in storage && storage[CONSENT_KEY] != ""
  }

  /** What the load handler leaves on the banner: `visible` is added when consent is missing. */
  function OnLoad(storage: Storage, banner: ClassSet): (r: ClassSet)
    ensures VISIBLE in r <==> VISIBLE in banner || !ConsentGiven(storage)
    ensures r - {VISIBLE} == banner - {VISIBLE}
    ensures ConsentGiven(storage) ==> r == banner
  {
    if !ConsentGiven(storage) then Add(banner, {VISIBLE}) else banner
  }

  /** The accept button's click: consent is stored and the banner hidden. */
  function OnAccept(storage: Storage, banner: ClassSet): (r: (Storage, ClassSet))
    ensures CONSENT_KEY in r.0 && r.0[CONSENT_KEY] == CONSENT_VALUE
    ensures r.0.Keys == storage.Keys + {CONSENT_KEY}
    ensures forall key :: key in storage && key != CONSENT_KEY ==> r.0[key] == storage[key]
    ensures VISIBLE !in r.1 && r.1 - {VISIBLE} == banner - {VISIBLE}
  {
    (storage[CONSENT_KEY := CONSENT_VALUE], Remove(banner, {VISIBLE}))
  }

  /** After accepting, any later page load whose markup starts the banner hidden keeps it hidden. */
  lemma AcceptedStaysHidden(storage: Storage, banner: ClassSet, laterMarkup: ClassSet)
    requires VISIBLE !in laterMarkup
    ensures ConsentGiven(OnAccept(storage, banner).0)
    ensures OnLoad(OnAccept(storage, banner).0, laterMarkup) == laterMarkup
  {
  }

  /** On a load from markup without `visible`, the banner shows exactly when consent is missing. */
  lemma LoadShowsIffNoConsent(storage: Storage, markup: ClassSet)
    requires VISIBLE !in markup
    ensures VISIBLE in OnLoad(storage, markup) <==> (CONSENT_KEY !in storage || storage[CONSENT_KEY] == "")
  {
  }

  /** Accepting twice is the same as accepting once. */
  lemma AcceptIdempotent(storage: Storage, banner: ClassSet)
    ensures var (s, b) := OnAccept(storage, banner); OnAccept(s, b) == (s, b)
  {
    var (s, b) := OnAccept(storage, banner);
    assert s[CONSENT_KEY := CONSENT_VALUE] == s;
    assert Remove(b, {VISIBLE}) == b;
  }

  /** The banner's class list and the local storage it reads and writes. */
  class ConsentBanner {
    var storage: Storage
    var banner: ClassSet

    /** Page load: the storage persisted from earlier visits and the banner's markup classes. */
    constructor (storage: Storage, markup: ClassSet)
      ensures this.storage == storage
      ensures banner == OnLoad(storage, markup)
    {
      this.storage := storage;
      banner := markup;
      new;
      if !ConsentGiven(this.storage) {
        banner := Add(banner, {VISIBLE});
      }
    }

    /** The click handler on the accept button. */
    method Accept()
      modifies this
      ensures (storage, banner) == OnAccept(old(storage), old(banner))
      ensures ConsentGiven(storage) && VISIBLE !in banner
    {
      storage := storage[CONSENT_KEY := CONSENT_VALUE];
      banner := Remove(banner, {VISIBLE});
    }
  }
}
