/**
 * The part of the DOM's `classList` (a DOMTokenList) that the page script uses,
 * over an element's classes viewed as a set of class names.
 */
module ClassList {
  type ClassSet = set<string>

  /** `classList.add(t1, t2, ...)`: every token is present afterwards, nothing else changes. */
  function Add(s: ClassSet, tokens: set<string>): (r: ClassSet)
    ensures tokens <= r
    ensures r - tokens == s - tokens
  {
    s + tokens
  }

  /** `classList.remove(t1, t2, ...)`: no token is present afterwards, nothing else changes. */
  function Remove(s: ClassSet, tokens: set<string>): (r: ClassSet)
    ensures r !! tokens
    ensures r - tokens == s - tokens
  {
    s - tokens
  }

  /**
   * `classList.toggle(token)`: removes the token when present, adds it otherwise,
   * and answers whether the token is present afterwards.
   */
  function Toggle(s: ClassSet, token: string): (r: (ClassSet, bool))
    ensures r.1 <==> token !in s
    ensures token in r.0 <==> r.1
    ensures r.0 - {token} == s - {token}
  {
    if token in s then (s - {token}, false) else (s + {token}, true)
  }

  /** `classList.toggle(token, force)`: the token is present afterwards exactly when `force` holds. */
  function ToggleForce(s: ClassSet, token: string, force: bool): (r: ClassSet)
    ensures token in r <==> force
    ensures r - {token} == s - {token}
  {
    if force then s + {token} else s - {token}
  }

  /**
   * `classList.replace(token, newToken)`: when `token` is present it is swapped for
   * `newToken`; when it is absent nothing changes.
   */
  function Replace(s: ClassSet, token: string, newToken: string): (r: ClassSet)
    ensures token !in s ==> r == s
    ensures token in s ==> newToken in r && (token != newToken ==> token !in r)
    ensures r - {token, newToken} == s - {token, newToken}
  {
    if token in s then s - {token} + {newToken} else s
  }
}
