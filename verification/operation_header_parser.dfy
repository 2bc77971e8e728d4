/** `OperationHeaderParser`: derives the correlation fields of an inbound
    request from its headers. `CorrelationIdManager.generateRequestId`,
    `CorrelationIdManager.getRootId`, `Util.getHeaderValueForKey` and the
    header names of `RequestResponseHeaders` are parameters: the model states
    how the parser composes them, not what they compute. */
module OperationHeaderParser {

  import opened Wrappers

  /** `toLowerCase` on one character, for the ASCII letters header names are
      made of. */
  function LowerChar(c: char): char {
    if 'A' <= c <= 'Z' then (c - 'A' + 'a') as char else c
  }

  /** `s.toLowerCase()` on ASCII: no capital letter remains, and each
      character is either kept or is a capital moved to its small letter. */
  function Lower(s: string): (r: string)
    ensures |r| == |s|
    ensures forall i :: 0 <= i < |r| ==> !('A' <= r[i] <= 'Z')
    ensures forall i :: 0 <= i < |r| ==>
      r[i] == s[i] || ('A' <= s[i] <= 'Z' && r[i] as int == s[i] as int + 32)
  {
    seq(|s|, i requires 0 <= i < |s| => LowerChar(s[i]))
  }

  predicate IsLower(s: string) {
    Lower(s) == s
  }

  /** Lower-casing is idempotent. */
  lemma LowerIsLower(s: string)
    ensures IsLower(Lower(s))
  {
    var r := Lower(s);
    assert forall i :: 0 <= i < |r| ==> Lower(r)[i] == r[i];
  }

  /** A name with an upper-case letter is nobody's lower-case form. */
  lemma NotLowerOfAny(key: string, other: string)
    requires !IsLower(key)
    ensures Lower(other) != key
  {
    LowerIsLower(other);
  }

  /** The header object, as the pairs of `Object.keys(headers)` order with
      their values. An object never has the same key twice. */
  type Headers = seq<(string, string)>

  ghost predicate DistinctKeys(h: Headers) {
    forall i, j :: 0 <= i < j < |h| ==> h[i].0 != h[j].0
  }

  /** The header object as a map. */
  function ToMap(h: Headers): (m: map<string, string>)
    ensures forall i :: 0 <= i < |h| ==> h[i].0 in m
  {
    if h == [] then map[]
    else ToMap(h[..|h| - 1])[h[|h| - 1].0 := h[|h| - 1].1]
  }

  /** The map holds no key but the object's. */
  lemma {:induction false} ToMapKeys(h: Headers, k: string)
    requires k in ToMap(h)
    ensures exists i :: 0 <= i < |h| && h[i].0 == k
  {
    if h[|h| - 1].0 != k {
      ToMapKeys(h[..|h| - 1], k);
      var i :| 0 <= i < |h| - 1 && h[..|h| - 1][i].0 == k;
      assert h[i].0 == k;
    }
  }

  lemma {:induction false} ToMapValue(h: Headers, i: nat)
    requires DistinctKeys(h) && i < |h|
    ensures ToMap(h)[h[i].0] == h[i].1
  {
    if i < |h| - 1 {
      ToMapValue(h[..|h| - 1], i);
    }
  }

  /** The loop of the constructor, run over the first `n` keys: each key's
      current value is copied under its lower-case form. The value is read
      from the map as the loop has left it so far. */
  function NormalizeUpTo(h: Headers, n: nat): (m: map<string, string>)
    requires n <= |h|
    ensures ToMap(h).Keys <= m.Keys
  {
    if n == 0 then ToMap(h)
    else
      var m := NormalizeUpTo(h, n - 1);
      var key := h[n - 1].0;
      m[Lower(key) := m[key]]
  }

  /** The last of the first `n` keys that differs from `x` but lower-cases to
      it. */
  function LastVariant(h: Headers, x: string, n: nat): (r: Option<nat>)
    requires n <= |h|
    ensures r.Some? ==> r.value < n && Lower(h[r.value].0) == x && h[r.value].0 != x
    ensures r.Some? ==> forall j :: r.value < j < n ==> !(Lower(h[j].0) == x && h[j].0 != x)
    ensures r.None? ==> forall j :: 0 <= j < n ==> !(Lower(h[j].0) == x && h[j].0 != x)
  {
    if n == 0 then None
    else if Lower(h[n - 1].0) == x && h[n - 1].0 != x then Some(n - 1)
    else LastVariant(h, x, n - 1)
  }

  /** What a case-insensitive lookup of `x` finds once the first `n` keys are
      normalised: the value of the last key that differs from `x` but
      lower-cases to it; when there is none, the value stored under `x`
      itself, if any. */
  function ResolvedUpTo(h: Headers, x: string, n: nat): Option<string>
    requires n <= |h|
  {
    match LastVariant(h, x, n)
    case Some(j) => Some(h[j].1)
    case None => Get(ToMap(h), x)
  }

  function Resolved(h: Headers, x: string): Option<string> {
    ResolvedUpTo(h, x, |h|)
  }

  lemma {:induction false} NormalizeUpToSpec(h: Headers, n: nat)
    requires DistinctKeys(h) && n <= |h|
    ensures forall x :: Get(NormalizeUpTo(h, n), x) == ResolvedUpTo(h, x, n)
  {
    if n > 0 {
      NormalizeUpToSpec(h, n - 1);
      forall x
        ensures Get(NormalizeUpTo(h, n), x) == ResolvedUpTo(h, x, n)
      {
        NormalizeStep(h, n, x);
      }
    }
  }

  /** One pass of the loop, for one lookup `x`: it changes only the entry of
      the current key's lower-case form. */
  lemma NormalizeStep(h: Headers, n: nat, x: string)
    requires DistinctKeys(h) && 0 < n <= |h|
    requires Get(NormalizeUpTo(h, n - 1), x) == ResolvedUpTo(h, x, n - 1)
    requires Get(NormalizeUpTo(h, n - 1), h[n - 1].0) == ResolvedUpTo(h, h[n - 1].0, n - 1)
    ensures Get(NormalizeUpTo(h, n), x) == ResolvedUpTo(h, x, n)
  {
    var key := h[n - 1].0;
    var y := Lower(key);
    if x != y || key == y {
      assert LastVariant(h, x, n) == LastVariant(h, x, n - 1);
    } else {
      CasedKeyUnchanged(h, n);
    }
  }

  /** A key holding an upper-case letter is nobody's lower-case form, so
      while the loop reaches it its value is still the original one. */
  lemma CasedKeyUnchanged(h: Headers, n: nat)
    requires DistinctKeys(h) && 0 < n <= |h|
    requires Lower(h[n - 1].0) != h[n - 1].0
    ensures ResolvedUpTo(h, h[n - 1].0, n - 1) == Some(h[n - 1].1)
  {
    var key := h[n - 1].0;
    forall j | 0 <= j < n - 1
      ensures Lower(h[j].0) != key
    {
      NotLowerOfAny(key, h[j].0);
    }
    assert LastVariant(h, key, n - 1).None?;
    ToMapValue(h, n - 1);
  }

  /** The header object after the constructor's normalisation loop. */
  function Normalize(h: Headers): (m: map<string, string>)
    requires DistinctKeys(h)
    ensures forall x :: Get(m, x) == Resolved(h, x)
  {
    NormalizeUpToSpec(h, |h|);
    NormalizeUpTo(h, |h|)
  }

  /** Normalisation only adds keys: every original key is still there, each
      key's lower-case form is there, and a key holding an upper-case letter
      keeps its value. */
  lemma NormalizeKeepsKeys(h: Headers)
    requires DistinctKeys(h)
    ensures forall i :: 0 <= i < |h| ==> h[i].0 in Normalize(h) && Lower(h[i].0) in Normalize(h)
    ensures forall i :: 0 <= i < |h| && !IsLower(h[i].0) ==> Normalize(h)[h[i].0] == h[i].1
  {
    forall i | 0 <= i < |h|
      ensures h[i].0 in Normalize(h) && Lower(h[i].0) in Normalize(h)
      ensures !IsLower(h[i].0) ==> Normalize(h)[h[i].0] == h[i].1
    {
      KeyKept(h, i);
    }
  }

  lemma KeyKept(h: Headers, i: nat)
    requires DistinctKeys(h) && i < |h|
    ensures h[i].0 in Normalize(h) && Lower(h[i].0) in Normalize(h)
    ensures !IsLower(h[i].0) ==> Normalize(h)[h[i].0] == h[i].1
  {
    var m := Normalize(h);
    var key := h[i].0;
    assert Get(m, key) == Resolved(h, key);
    assert Get(m, Lower(key)) == Resolved(h, Lower(key));
    if !IsLower(key) {
      forall j | 0 <= j < |h|
        ensures Lower(h[j].0) != key
      {
        NotLowerOfAny(key, h[j].0);
      }
      assert LastVariant(h, key, |h|).None?;
      ToMapValue(h, i);
      assert LastVariant(h, Lower(key), |h|).Some?;
    }
  }

  /** For a lower-case header name, the lookup after normalisation finds
      nothing exactly when no key lower-cases to the name. */
  lemma LookupMissing(h: Headers, name: string)
    requires DistinctKeys(h) && IsLower(name)
    ensures Get(Normalize(h), name).None? <==> forall i :: 0 <= i < |h| ==> Lower(h[i].0) != name
  {
    if exists i :: 0 <= i < |h| && Lower(h[i].0) == name {
      var i :| 0 <= i < |h| && Lower(h[i].0) == name;
      KeyKept(h, i);
    } else if Get(Normalize(h), name).Some? {
      assert LastVariant(h, name, |h|).None?;
      assert name in ToMap(h);
      ToMapKeys(h, name);
    }
  }

  /** For a lower-case header name that exactly one key lower-cases to, the
      lookup after normalisation finds that key's value, whatever its
      casing. */
  lemma LookupUnique(h: Headers, name: string, i: nat)
    requires DistinctKeys(h) && IsLower(name)
    requires i < |h| && Lower(h[i].0) == name
    requires forall j :: 0 <= j < |h| && j != i ==> Lower(h[j].0) != name
    ensures Get(Normalize(h), name) == Some(h[i].1)
  {
    assert Get(Normalize(h), name) == Resolved(h, name);
    if h[i].0 == name {
      assert LastVariant(h, name, |h|).None?;
      ToMapValue(h, i);
    } else {
      assert LastVariant(h, name, |h|) == Some(i);
    }
  }

  /** The names under which the parser looks headers up
      (`RequestResponseHeaders`). */
  datatype HeaderNames = HeaderNames(
    requestContextHeader: string,
    requestContextSourceKey: string,
    requestIdHeader: string,
    correlationContextHeader: string)

  /** The collaborators the parser calls. */
  datatype Collaborators = Collaborators(
    names: HeaderNames,
    generateRequestId: Option<string> -> string,
    getRootId: string -> string,
    getHeaderValueForKey: (Option<string>, string) -> string)

  /** The fields of a constructed parser. A header that is missing leaves
      its field `undefined` (`None`), not "". */
  datatype OperationContext = OperationContext(
    sourceCorrelationId: string,
    parentId: Option<string>,
    requestId: string,
    correlationContextHeader: Option<string>,
    operationId: string)

  /** `new OperationHeaderParser(headers)`: the fields, and the header object
      as the constructor leaves it. */
  function Parse(c: Collaborators, h: Headers): (r: (OperationContext, map<string, string>))
    requires DistinctKeys(h)
    ensures var (ctx, headers) := r;
      && (forall x :: Get(headers, x) == Resolved(h, x))
      && ctx.parentId == Resolved(h, c.names.requestIdHeader)
      && ctx.requestId == c.generateRequestId(Resolved(h, c.names.requestIdHeader))
      && ctx.operationId == c.getRootId(ctx.requestId)
      && ctx.correlationContextHeader == Resolved(h, c.names.correlationContextHeader)
      && ctx.sourceCorrelationId
           == c.getHeaderValueForKey(Resolved(h, c.names.requestContextHeader), c.names.requestContextSourceKey)
  {
    var headers := Normalize(h);
    var sourceCorrelationId := c.getHeaderValueForKey(Get(headers, c.names.requestContextHeader), c.names.requestContextSourceKey);
    var parentId := Get(headers, c.names.requestIdHeader);
    var requestId := c.generateRequestId(parentId);
    var correlationContextHeader := Get(headers, c.names.correlationContextHeader);
    var operationId := c.getRootId(requestId);
    (OperationContext(sourceCorrelationId, parentId, requestId, correlationContextHeader, operationId), headers)
  }

  /** With lower-case header names, a request that carries the request-id
      header in any casing, once, gets that value as its parent, a request id
      generated from it, and the root of that id as its operation; without the
      header, the parent is `undefined` and the request id is generated from
      `undefined`. */
  lemma ParentFromAnyCasing(c: Collaborators, h: Headers, i: nat)
    requires DistinctKeys(h) && IsLower(c.names.requestIdHeader)
    requires i < |h| && Lower(h[i].0) == c.names.requestIdHeader
    requires forall j :: 0 <= j < |h| && j != i ==> Lower(h[j].0) != c.names.requestIdHeader
    ensures Parse(c, h).0.parentId == Some(h[i].1)
    ensures Parse(c, h).0.requestId == c.generateRequestId(Some(h[i].1))
    ensures Parse(c, h).0.operationId == c.getRootId(c.generateRequestId(Some(h[i].1)))
  {
    LookupUnique(h, c.names.requestIdHeader, i);
  }

  lemma NoParentWithoutHeader(c: Collaborators, h: Headers)
    requires DistinctKeys(h) && IsLower(c.names.requestIdHeader)
    requires forall j :: 0 <= j < |h| ==> Lower(h[j].0) != c.names.requestIdHeader
    ensures Parse(c, h).0.parentId == None
    ensures Parse(c, h).0.requestId == c.generateRequestId(None)
  {
    LookupMissing(h, c.names.requestIdHeader);
  }

  /** When a lower-case key and a differently cased key collide, the value
      of the differently cased one wins, even when the lower-case key comes
      later: the loop copies `Request-Id` over `request-id` first, and then
      copies `request-id` onto itself. */
  lemma CollisionKeepsCasedValue()
    ensures var h := [("Request-Id", "A"), ("request-id", "B")];
      Normalize(h)["request-id"] == "A"
  {
    var h := [("Request-Id", "A"), ("request-id", "B")];
    assert Lower("Request-Id") == "request-id";
    assert LastVariant(h, "request-id", 2) == Some(0);
    assert Get(Normalize(h), "request-id") == Resolved(h, "request-id");
  }

  /** When two keys lower-case to the name and neither is lower case, the
      later one's value wins. */
  lemma CollisionLaterCasedWins()
    ensures var h := [("Request-Id", "A"), ("REQUEST-ID", "B")];
      Get(Normalize(h), "request-id") == Some("B")
  {
    var h := [("Request-Id", "A"), ("REQUEST-ID", "B")];
    assert Lower("REQUEST-ID") == "request-id";
    assert LastVariant(h, "request-id", 2) == Some(1);
    assert Get(Normalize(h), "request-id") == Resolved(h, "request-id");
  }

  /** A request carrying `request-id: |root1.` and `correlation-context: k=v`
      gets that parent, that correlation context, and the root of the request
      id generated from the parent as its operation. */
  lemma InboundRequestExample(c: Collaborators)
    requires c.names.requestIdHeader == "request-id"
    requires c.names.correlationContextHeader == "correlation-context"
    ensures var ctx := Parse(c, [("request-id", "|root1."), ("correlation-context", "k=v")]).0;
      && ctx.parentId == Some("|root1.")
      && ctx.correlationContextHeader == Some("k=v")
      && ctx.requestId == c.generateRequestId(Some("|root1."))
      && ctx.operationId == c.getRootId(c.generateRequestId(Some("|root1.")))
  {
    var h := [("request-id", "|root1."), ("correlation-context", "k=v")];
    ExampleNames(h[0].0, h[1].0);
    LookupUnique(h, h[0].0, 0);
    LookupUnique(h, h[1].0, 1);
  }

  /** The two header names of `InboundRequestExample` are lower case and
      distinct. They are passed as variables pinned by the precondition, not
      as literals, because calls on literal arguments are unfolded eagerly by
      the verifier, which makes the example's proof costly. */
  lemma ExampleNames(a: string, b: string)
    requires a == "request-id" && b == "correlation-context"
    ensures IsLower(a) && IsLower(b) && a != b
  {
    assert Lower(a) == a by { assert forall i :: 0 <= i < |a| ==> LowerChar(a[i]) == a[i]; }
    assert Lower(b) == b by { assert forall i :: 0 <= i < |b| ==> LowerChar(b[i]) == b[i]; }
    assert a[0] != b[0];
  }
}
