/** `Util.getCookie`: find the value of one cookie in a `Cookie` header. */
module Cookie {

  import opened Wrappers
  import opened Text

  /** A `;`-separated segment names the cookie when its trimmed form begins
      with `name=`. */
  predicate Names(segment: string, name: string) {
    StartsWith(Trim(segment), name + "=")
  }

  /** The first segment at or after `from` that names the cookie. */
  function FirstNaming(segments: seq<string>, name: string, from: nat): (r: Option<nat>)
    requires from <= |segments|
    ensures r.Some? ==> from <= r.value < |segments| && Names(segments[r.value], name)
    ensures forall j :: from <= j < |segments| && Names(segments[j], name) ==> r.Some? && r.value <= j
    decreases |segments| - from
  {
    if from == |segments| then None
    else if Names(segments[from], name) then Some(from)
    else FirstNaming(segments, name, from + 1)
  }

  /** `Util.getCookie(name, cookie)`. `cookie` is `None` when it is not a
      string; an empty `name` stands for every falsy name. The result is the
      text after `name=` in the first segment that names the cookie, and ""
      when there is no such segment. */
  method GetCookie(name: string, cookie: Option<string>) returns (value: string)
    ensures name == "" || cookie.None? ==> value == ""
    ensures name != "" && cookie.Some? ==>
      var segments := Split(cookie.value, ';');
      match FirstNaming(segments, name, 0)
      case None => value == ""
      case Some(k) => value == Trim(segments[k])[|name| + 1..]
    ensures ';' !in value
  {
    value := "";
    if name != "" && cookie.Some? {
      var cookieName := name + "=";
      var cookies := Split(cookie.value, ';');
      var i := 0;
      while i < |cookies|
        invariant 0 <= i <= |cookies|
        invariant value == ""
        invariant FirstNaming(cookies, name, 0) == FirstNaming(cookies, name, i)
      {
        var trimmed := Trim(cookies[i]);
        if trimmed != "" && StartsWith(trimmed, cookieName) {
          // the end index is the untrimmed segment's length, which is never
          // shorter than the trimmed one, so the slice runs to the end
          value := Substring(trimmed, |cookieName|, |cookies[i]|);
          TrimSuffixAvoids(cookies[i], |cookieName|, ';');
          return;
        }
        i := i + 1;
      }
    }
  }

  /** A character missing from a segment is missing from every suffix of its
      trimmed form. */
  lemma TrimSuffixAvoids(segment: string, k: nat, c: char)
    requires c !in segment
    requires k <= |Trim(segment)|
    ensures c !in Trim(segment)[k..]
  {
    TrimChars(segment, c);
    var t := Trim(segment);
    assert forall j :: 0 <= j < |t| - k ==> t[k..][j] == t[k + j];
  }
}
