/** Which key, fingerprint and scope an idempotent request gets
    (endpoint/idempotency.go). Hashing is taken to be injective. */
module IdempotencyKeys {
  import opened Wrappers
  import opened Text
  import opened JsonTrees
  import RequestMeta

  const MAX_KEY := 255

  datatype KeyError = BadLength(source: string) | BadCharacter(source: string) | BadQuotes | InvalidBody
    | TopLevelKey | Mismatch

  predicate KeyChar(c: char) {
    c > ' ' && c != '\U{7f}'
  }

  /** A key the endpoint accepts: 1 to 255 bytes, no blanks or control characters. */
  predicate ValidKey(key: string) {
    1 <= ByteLength(key) <= MAX_KEY && forall i :: 0 <= i < |key| ==> KeyChar(key[i])
  }

  lemma ByteLengthZero(s: string)
    ensures ByteLength(s) >= 1 <==> s != ""
  {
  }

  /** `normalizeIdempotencyKey`: nothing supplied is the empty key. */
  method NormalizeKey(raw: string, source: string) returns (r: Result<string, KeyError>)
    ensures r.Ok? <==> BlankOrValid(TrimSpace(raw))
    ensures r.Ok? ==> r.value == TrimSpace(raw)
    ensures r.Err? ==> r.error == if 1 <= ByteLength(TrimSpace(raw)) <= MAX_KEY then BadCharacter(source) else BadLength(source)
  {
    hide TrimSpace, ByteLength;
    var key := TrimSpace(raw);
    ByteLengthZero(key);
    if key == "" { return Ok(""); }
    var length := ByteLength(key);
    if length < 1 || length > MAX_KEY { return Err(BadLength(source)); }
    for i := 0 to |key|
      invariant forall j :: 0 <= j < i ==> KeyChar(key[j])
    {
      if key[i] <= ' ' || key[i] == '\U{7f}' { return Err(BadCharacter(source)); }
    }
    return Ok(key);
  }

  /** The header's text: quotes come in pairs and are taken off. */
  function Unquoted(header: string, unquote: string -> Option<string>): Option<string> {
    var raw := TrimSpace(header);
    if raw == "" then Some("")
    else
      var first, last := raw[0] == '"', raw[|raw| - 1] == '"';
      if !first && !last then Some(raw) else if first != last then None else unquote(raw)
  }

  /** Where a key can come from. The body is none when it is blank. */
  datatype Sources = Sources(header: string, body: Option<Option<map<string, Json>>>, meta: string, session: string)

  predicate BlankOrValid(key: string) {
    key == "" || ValidKey(key)
  }

  /** The header's key, none when the header is malformed. */
  function HeaderKey(s: Sources, unquote: string -> Option<string>): Option<string> {
    var text := Unquoted(s.header, unquote);
    if text.Some? && BlankOrValid(TrimSpace(text.value)) then Some(TrimSpace(text.value)) else None
  }

  predicate StartsQuoted(raw: string) {
    raw != "" && raw[0] == '"'
  }

  /** A quote at one end only, or something between two that cannot be unquoted. */
  predicate BadlyQuoted(raw: string, unquote: string -> Option<string>) {
    raw != "" &&
    if StartsQuoted(raw) then raw[|raw| - 1] != '"' || unquote(raw).None? else raw[|raw| - 1] == '"'
  }

  method KeyFromHeader(header: string, unquote: string -> Option<string>) returns (r: Result<string, KeyError>)
    ensures r.Ok? <==> Unquoted(header, unquote).Some? && BlankOrValid(TrimSpace(Unquoted(header, unquote).value))
    ensures r.Ok? ==> r.value == TrimSpace(Unquoted(header, unquote).value)
    ensures r.Err? ==> r.error.BadQuotes? || r.error.BadLength? || r.error.BadCharacter?
    ensures r == Err(BadQuotes) <==> BadlyQuoted(TrimSpace(header), unquote)
    ensures TrimSpace(header) == "" ==> r == Ok("")
    ensures r.Ok? && r.value != "" ==> r.value == TrimSpace(
      if StartsQuoted(TrimSpace(header)) then unquote(TrimSpace(header)).value else TrimSpace(header))
  {
    hide TrimSpace, ValidKey;
    TrimmedIsFixed("");
    var raw := TrimSpace(header);
    if raw == "" { return Ok(""); }
    var key := raw;
    if raw[0] == '"' || raw[|raw| - 1] == '"' {
      if raw[0] != '"' || raw[|raw| - 1] != '"' { return Err(BadQuotes); }
      var unquoted := unquote(raw);
      if unquoted.None? { return Err(BadQuotes); }
      key := unquoted.value;
    }
    r := NormalizeKey(key, "Idempotency-Key");
  }

  /** The body has no idempotency key of its own, outside `request_meta`. */
  predicate BodyAllows(body: Option<Option<map<string, Json>>>) {
    body.Some? ==> body.value.Some? && "idempotency_key" !in body.value.value
  }

  /** What the request supplies is in order: header, body and `request_meta` key
      are each acceptable, and two keys are the same key. */
  predicate RequestInOrder(s: Sources, unquote: string -> Option<string>) {
    && HeaderKey(s, unquote).Some?
    && BodyAllows(s.body)
    && BlankOrValid(TrimSpace(s.meta))
    && (HeaderKey(s, unquote).value != "" && TrimSpace(s.meta) != "" ==> HeaderKey(s, unquote).value == TrimSpace(s.meta))
  }

  /** A key is selected exactly when the request is in order and, if it supplies
      none, the session's key is blank or valid. The request's own key wins, then
      the session's, then the generated one. */
  method SelectKey(s: Sources, unquote: string -> Option<string>, generated: string) returns (r: Result<string, KeyError>)
    requires ValidKey(generated)
    ensures r.Ok? <==>
      RequestInOrder(s, unquote) &&
      (HeaderKey(s, unquote).value == "" && TrimSpace(s.meta) == "" ==> BlankOrValid(TrimSpace(s.session)))
    ensures r.Ok? ==> ValidKey(r.value)
    ensures r.Ok? ==>
      r.value == if HeaderKey(s, unquote).value != "" then HeaderKey(s, unquote).value
                 else if TrimSpace(s.meta) != "" then TrimSpace(s.meta)
                 else if TrimSpace(s.session) != "" then TrimSpace(s.session)
                 else generated
    ensures HeaderKey(s, unquote).Some? && !BodyAllows(s.body) ==>
      r == Err(if s.body.value.None? then InvalidBody else TopLevelKey)
    ensures r == Err(Mismatch) <==>
      HeaderKey(s, unquote).Some? && BodyAllows(s.body) && BlankOrValid(TrimSpace(s.meta)) && !RequestInOrder(s, unquote)
  {
    hide TrimSpace, ValidKey, Unquoted;
    var header := KeyFromHeader(s.header, unquote);
    if header.Err? { return header; }
    if s.body.Some? {
      if s.body.value.None? { return Err(InvalidBody); }
      if "idempotency_key" in s.body.value.value { return Err(TopLevelKey); }
    }
    var meta := NormalizeKey(s.meta, "request_meta.idempotency_key");
    if meta.Err? { return meta; }
    if header.value != "" && meta.value != "" && header.value != meta.value { return Err(Mismatch); }
    if header.value != "" { return header; }
    if meta.value != "" { return meta; }
    var session := NormalizeKey(s.session, "session.idempotency_key");
    if session.Err? { return session; }
    return if session.value != "" then session else Ok(generated);
  }

  // ---------------------------------------------------------- fingerprint

  /** What is hashed: the operation's members. A blank body hashes like an empty object. */
  function Operation(body: Option<map<string, Json>>): Json {
    if body.None? then JObject(map[]) else JObject(body.value - {RequestMeta.REQUEST_META})
  }

  /** Two bodies have the same fingerprint exactly when they agree on every member
      but `request_meta`: changing response preferences, or taking the envelope
      out of the body as the endpoint does before its handler runs, does not
      change the operation; changing anything else does. */
  lemma SameOperation(a: map<string, Json>, b: map<string, Json>)
    ensures Operation(Some(a)) == Operation(Some(b)) <==>
            (forall k :: k != RequestMeta.REQUEST_META ==> (k in a <==> k in b) && (k in a ==> a[k] == b[k]))
    ensures Operation(Some(a - {RequestMeta.REQUEST_META})) == Operation(Some(a))
  {
    assert a - {RequestMeta.REQUEST_META} - {RequestMeta.REQUEST_META} == a - {RequestMeta.REQUEST_META};
    var x, y := a - {RequestMeta.REQUEST_META}, b - {RequestMeta.REQUEST_META};
    if Operation(Some(a)) == Operation(Some(b)) {
      assert x == y;
      forall k | k != RequestMeta.REQUEST_META ensures (k in a <==> k in b) && (k in a ==> a[k] == b[k]) {
        assert (k in x <==> k in a) && (k in y <==> k in b);
      }
    }
    if forall k :: k != RequestMeta.REQUEST_META ==> (k in a <==> k in b) && (k in a ==> a[k] == b[k]) {
      assert x == y;
    }
  }

  // ---------------------------------------------------------------- scope

  /** `appID#namespace#METHOD#path`. */
  function Scope(app: string, namespace: string, verb: string, path: string): string {
    app + "#" + namespace + "#" + verb + "#" + path
  }

  /** The first `#` of such a text comes right after `a`. */
  lemma FirstHash(a: string, rest: string)
    requires '#' !in a
    ensures var s := a + "#" + rest; s[|a|] == '#' && forall i :: 0 <= i < |a| ==> s[i] != '#'
  {
    assert forall i :: 0 <= i < |a| ==> a[i] in a;
  }

  lemma SplitAtHash(a: string, rest: string, b: string, more: string)
    requires '#' !in a && '#' !in b && a + "#" + rest == b + "#" + more
    ensures a == b && rest == more
  {
    var s := a + "#" + rest;
    FirstHash(a, rest);
    FirstHash(b, more);
    assert |a| == |b|;
    assert a == s[..|a|] && b == (b + "#" + more)[..|b|];
    assert rest == s[|a| + 1..] && more == (b + "#" + more)[|b| + 1..];
  }

  /** Scopes tell operations apart, as long as only the path may contain `#`. */
  lemma ScopesDiffer(
    app: string, ns: string, verb: string, path: string, app': string, ns': string, verb': string, path': string)
    requires '#' !in app && '#' !in ns && '#' !in verb && '#' !in app' && '#' !in ns' && '#' !in verb'
    requires Scope(app, ns, verb, path) == Scope(app', ns', verb', path')
    ensures app == app' && ns == ns' && verb == verb' && path == path'
  {
    var tail, tail' := ns + "#" + (verb + "#" + path), ns' + "#" + (verb' + "#" + path');
    assert Scope(app, ns, verb, path) == app + "#" + tail;
    assert Scope(app', ns', verb', path') == app' + "#" + tail';
    SplitAtHash(app, tail, app', tail');
    SplitAtHash(ns, verb + "#" + path, ns', verb' + "#" + path');
    SplitAtHash(verb, path, verb', path');
  }

  /** What an endpoint may be defined for: anything else panics at start-up. */
  datatype Method = GET | POST

  function Word(verb: Method): string {
    if verb.GET? then "GET" else "POST"
  }

  predicate Rooted(path: string) {
    path != "" && path[0] == '/'
  }

  /** The operation a scope stands for. */
  datatype Target = Target(app: string, ns: string, verb: Method, path: string) {
    function Head(): string { app + "#" + ns }

    function Tail(): string { "#" + Word(verb) + "#" + path }

    function Text(): string { Scope(app, ns, Word(verb), path) }

    predicate Formed() {
      app != "" && Trimmed(app) && ns != "" && Trimmed(ns) && Rooted(path)
    }
  }

  const UNAUTHORIZED_APP := "UNAUTHORIZED_REQUEST"
  const DEFAULT_NAMESPACE := "httpapi"

  function OrElse(s: string, fallback: string): string {
    if s == "" then fallback else s
  }

  /** `idempotencyScopeWithAppID`, with the namespace as it is configured. */
  function TargetOf(appID: string, namespace: string, verb: Method, requestPath: string, pattern: string): Target {
    Target(OrElse(TrimSpace(appID), UNAUTHORIZED_APP), OrElse(TrimSpace(namespace), DEFAULT_NAMESPACE),
           verb, OrElse(requestPath, pattern))
  }

  /** The formed targets are those of requests and patterns that start with a slash. */
  lemma FormedExactly(t: Target)
    ensures t.Formed() <==>
            exists appID, namespace, requestPath, pattern ::
              t == TargetOf(appID, namespace, t.verb, requestPath, pattern) &&
              Rooted(OrElse(requestPath, pattern))
  {
    hide TrimSpace;
    if t.Formed() {
      TrimmedIsFixed(t.app);
      TrimmedIsFixed(t.ns);
      assert t == TargetOf(t.app, t.ns, t.verb, t.path, t.path);
    }
    if appID, namespace, requestPath, pattern :|
      t == TargetOf(appID, namespace, t.verb, requestPath, pattern) &&
      Rooted(OrElse(requestPath, pattern))
    {
      TrimTrims(appID);
      TrimTrims(namespace);
    }
  }

  /** A `#` at `c` can be the one between an application and a namespace. */
  predicate Divides(s: string, c: nat) {
    0 < c < |s| - 1 && s[c] == '#' && Trimmed(s[..c]) && Trimmed(s[c + 1..])
  }

  predicate OneCut(s: string, c: nat) {
    forall d: nat :: d < |s| && Divides(s, d) ==> d == c
  }

  predicate Divisible(s: string) {
    exists c: nat :: c < |s| && Divides(s, c)
  }

  /** What can be the method between `#`s, before a path. */
  predicate MethodAt(s: string, k: nat) {
    k <= |s| && ("#GET#/" <= s[k..] || "#POST#/" <= s[k..])
  }

  /** No method inside the application and namespace with a target before it. */
  predicate NoMethodInHead(head: string) {
    forall k: nat :: k < |head| && MethodAt(head, k) ==> !Divisible(head[..k])
  }

  /** No method inside the path, unless whitespace comes before it. */
  predicate NoMethodInPath(path: string) {
    forall k: nat :: 0 < k < |path| && MethodAt(path, k) ==> IsSpace(path[k - 1])
  }

  /** A scope belongs to one operation alone if and only if application and
      namespace can be cut in one way only, and neither they nor the path hold
      what looks like another method. */
  lemma ScopeOwnExactly(t: Target)
    requires t.Formed()
    ensures (forall other: Target :: other.Formed() && other.Text() == t.Text() ==> other == t)
            <==> OneCut(t.Head(), |t.app|) && NoMethodInHead(t.Head()) && NoMethodInPath(t.path)
  {
    hide OneCut, NoMethodInHead, NoMethodInPath;
    if OneCut(t.Head(), |t.app|) && NoMethodInHead(t.Head()) && NoMethodInPath(t.path) {
      forall other: Target | other.Formed() && other.Text() == t.Text() ensures other == t { ScopeTells(t, other); }
    } else {
      var other := ScopesCollide(t);
    }
  }

  /** Among operations of one method and path the cut decides alone. */
  lemma SameRouteExactly(t: Target)
    requires t.Formed()
    ensures (forall other: Target ::
               other.Formed() && other.verb == t.verb && other.path == t.path && other.Text() == t.Text() ==> other == t)
            <==> OneCut(t.Head(), |t.app|)
  {
    hide OneCut;
    if OneCut(t.Head(), |t.app|) {
      forall other: Target
        | other.Formed() && other.verb == t.verb && other.path == t.path && other.Text() == t.Text()
        ensures other == t
      {
        TextSplits(t);
        TextSplits(other);
        SameHead(t, other);
      }
    } else {
      var other := OtherCut(t);
    }
  }

  lemma TextSplits(t: Target)
    ensures t.Text() == t.Head() + t.Tail()
  {
  }

  lemma HeadDivides(t: Target)
    requires t.Formed()
    ensures Divides(t.Head(), |t.app|)
  {
    var head := t.Head();
    assert head[..|t.app|] == t.app && head[|t.app| + 1..] == t.ns;
  }

  /** Equal heads are cut in the same way. */
  lemma SameHead(t: Target, other: Target)
    requires t.Formed() && other.Formed() && OneCut(t.Head(), |t.app|)
    requires t.Text() == other.Text() && |t.Head()| == |other.Head()|
    ensures other == t
  {
    hide Divides, Scope, Word;
    TextSplits(t);
    TextSplits(other);
    var text, n := t.Text(), |t.Head()|;
    assert t.Head() == text[..n] == other.Head() && t.Tail() == text[n..] == other.Tail();
    HeadDivides(other);
    SameTail(t, other);
    HeadParts(t);
    HeadParts(other);
  }

  lemma HeadParts(t: Target)
    ensures t.app == t.Head()[..|t.app|] && t.ns == t.Head()[|t.app| + 1..]
  {
  }

  /** The first letter tells the methods apart. */
  lemma SameTail(t: Target, other: Target)
    requires t.Tail() == other.Tail()
    ensures t.verb == other.verb && t.path == other.path
  {
    assert t.Tail()[1] == Word(t.verb)[0] && other.Tail()[1] == Word(other.verb)[0];
    var v := |Word(t.verb)| + 2;
    assert t.path == t.Tail()[v..] && other.path == other.Tail()[v..];
  }

  /** The tail starts with a method, and its path only later. */
  lemma TailStarts(t: Target)
    requires t.Formed()
    ensures MethodAt(t.Tail(), 0)
    ensures forall d :: 0 < d < |t.Tail()| && MethodAt(t.Tail(), d) ==>
      d > |Word(t.verb)| + 2 && MethodAt(t.path, d - |Word(t.verb)| - 2)
  {
    hide MethodAt;
    var tail, v := t.Tail(), |Word(t.verb)| + 2;
    assert tail[v..] == t.path;
    TailBegins(t);
    forall d | 0 < d < |tail| && MethodAt(tail, d) ensures d > v && MethodAt(t.path, d - v) {
      MethodSeen(tail, d);
      assert d > v;
      assert t.path[d - v..] == tail[d..];
      MethodMoves(tail, d);
      MethodMoves(t.path, d - v);
    }
  }

  lemma TailBegins(t: Target)
    requires t.Formed()
    ensures var tail, v := t.Tail(), |Word(t.verb)| + 2;
            MethodAt(tail, 0) && v < |tail| && tail[v] == '/' && forall d :: 0 < d < v - 1 ==> tail[d] != '#'
  {
    assert t.Tail()[..|Word(t.verb)| + 3] == "#" + Word(t.verb) + "#/";
  }

  lemma MethodSeen(s: string, d: nat)
    requires MethodAt(s, d)
    ensures d + 1 < |s| && s[d] == '#' && s[d + 1] != '/'
  {
    assert s[d] == s[d..][0] && s[d + 1] == s[d..][1];
  }

  lemma ScopeTells(t: Target, other: Target)
    requires t.Formed() && other.Formed() && other.Text() == t.Text()
    requires OneCut(t.Head(), |t.app|) && NoMethodInHead(t.Head()) && NoMethodInPath(t.path)
    ensures other == t
  {
    hide OneCut, Divides, MethodAt;
    if |other.Head()| == |t.Head()| {
      SameHead(t, other);
    } else if |other.Head()| > |t.Head()| {
      LaterHead(t, other);
    } else {
      EarlierHead(t, other);
    }
  }

  /** A head that ends inside the path comes before a method there. */
  lemma LaterHead(t: Target, other: Target)
    requires t.Formed() && other.Formed() && other.Text() == t.Text() && |other.Head()| > |t.Head()|
    ensures !NoMethodInPath(t.path)
  {
    hide MethodAt;
    TextSplits(t);
    TextSplits(other);
    TailStarts(t);
    TailStarts(other);
    var text, d, v := t.Text(), |other.Head()| - |t.Head()|, |Word(t.verb)| + 2;
    assert t.Tail() == text[|t.Head()|..] && other.Tail() == text[|other.Head()|..];
    assert t.Tail()[d..] == other.Tail();
    MethodMoves(t.Tail(), d);
    var k := d - v;
    assert t.path[k - 1] == t.Tail()[d - 1] == text[|other.Head()| - 1] == other.ns[|other.ns| - 1];
  }

  lemma MethodMoves(s: string, d: nat)
    requires d <= |s|
    ensures MethodAt(s, d) <==> MethodAt(s[d..], 0)
  {
    assert s[d..][0..] == s[d..];
  }

  /** A head that ends inside the other is followed by a method there. */
  lemma EarlierHead(t: Target, other: Target)
    requires t.Formed() && other.Formed() && other.Text() == t.Text() && |other.Head()| < |t.Head()|
    ensures !NoMethodInHead(t.Head())
  {
    hide MethodAt, Divides;
    TextSplits(t);
    TextSplits(other);
    HeadDivides(other);
    var text, head, k := t.Text(), t.Head(), |other.Head()|;
    assert head == text[..|head|] && head[..k] == text[..k] == other.Head();
    assert Divisible(head[..k]);
    MethodFits(text, |head|, k, other);
    assert text[..|head|] == head;
  }

  /** A method before the one at `n` ends before it, too. */
  lemma MethodFits(text: string, n: nat, k: nat, other: Target)
    requires k < n < |text| - 1 && text[n] == '#' && text[n + 1] != '/' && other.Formed() && text[k..] == other.Tail()
    ensures MethodAt(text[..n], k)
  {
    var tail, v := other.Tail(), |Word(other.verb)| + 2;
    var marker := "#" + Word(other.verb) + "#/";
    assert tail[..v + 1] == marker;
    assert tail[n - k] == text[n] && tail[n + 1 - k] == text[n + 1];
    assert tail[v] == '/' && tail[v - 1] == '#';
    assert n - k > v;
    assert text[..n][k..] == tail[..n - k];
    assert marker <= text[..n][k..];
  }

  lemma OtherCut(t: Target) returns (other: Target)
    requires t.Formed() && !OneCut(t.Head(), |t.app|)
    ensures other.Formed() && other.verb == t.verb && other.path == t.path && other.Text() == t.Text() && other != t
  {
    var c: nat :| c < |t.Head()| && Divides(t.Head(), c) && c != |t.app|;
    other := Target(t.Head()[..c], t.Head()[c + 1..], t.verb, t.path);
    assert other.Head() == t.Head();
    TextSplits(t);
    TextSplits(other);
  }

  /** Where a method follows something divisible, another operation can be read. */
  lemma ReadAt(text: string, k: nat) returns (other: Target)
    requires k <= |text| && Divisible(text[..k]) && MethodAt(text, k)
    ensures other.Formed() && other.Text() == text && |other.Head()| == k
  {
    hide Trimmed, Word;
    var head, tail := text[..k], text[k..];
    var c: nat :| c < |head| && Divides(head, c);
    var verb := if "#GET#/" <= tail then GET else POST;
    MarkerOf(tail);
    var v := |Word(verb)| + 2;
    MarkerSplits(tail, verb);
    HeadJoins(head, c);
    other := Target(head[..c], head[c + 1..], verb, tail[v..]);
    TextSplits(other);
    assert text == head + tail;
  }

  lemma MarkerOf(tail: string)
    requires "#GET#/" <= tail || "#POST#/" <= tail
    ensures "#" + Word(if "#GET#/" <= tail then GET else POST) + "#/" <= tail
  {
  }

  lemma MarkerSplits(tail: string, verb: Method)
    requires "#" + Word(verb) + "#/" <= tail
    ensures var v := |Word(verb)| + 2; v < |tail| && Rooted(tail[v..]) && tail == "#" + Word(verb) + "#" + tail[v..]
  {
    var v := |Word(verb)| + 2;
    assert tail[..v + 1] == "#" + Word(verb) + "#/";
    assert tail[..v] == tail[..v + 1][..v] == "#" + Word(verb) + "#";
    assert tail[v] == tail[..v + 1][v] == '/';
    assert tail == tail[..v] + tail[v..];
  }

  lemma HeadJoins(head: string, c: nat)
    requires c < |head| && Divides(head, c)
    ensures head == head[..c] + "#" + head[c + 1..]
  {
  }

  lemma ScopesCollide(t: Target) returns (other: Target)
    requires t.Formed()
    requires !(OneCut(t.Head(), |t.app|) && NoMethodInHead(t.Head()) && NoMethodInPath(t.path))
    ensures other.Formed() && other.Text() == t.Text() && other != t
  {
    hide OneCut, Divides, Divisible, MethodAt, IsSpace;
    TextSplits(t);
    var text, head := t.Text(), t.Head();
    if !OneCut(head, |t.app|) {
      other := OtherCut(t);
    } else if !NoMethodInHead(head) {
      var k: nat :| k < |head| && MethodAt(head, k) && Divisible(head[..k]);
      assert text[..k] == head[..k];
      MethodStays(head, t.Tail(), k);
      other := ReadAt(text, k);
    } else {
      var k: nat :| 0 < k < |t.path| && MethodAt(t.path, k) && !IsSpace(t.path[k - 1]);
      other := PathCollides(t, k);
    }
  }

  lemma MethodStays(s: string, more: string, k: nat)
    requires MethodAt(s, k)
    ensures MethodAt(s + more, k)
  {
    assert (s + more)[k..] == s[k..] + more;
  }

  lemma PathCollides(t: Target, k: nat) returns (other: Target)
    requires t.Formed() && 0 < k < |t.path| && MethodAt(t.path, k) && !IsSpace(t.path[k - 1])
    ensures other.Formed() && other.Text() == t.Text() && other != t
  {
    hide MethodAt;
    TextSplits(t);
    var text := t.Text();
    var n := |text| - |t.path| + k;
    assert text[n..] == t.path[k..];
    MethodMoves(text, n);
    MethodMoves(t.path, k);
    var head, c := text[..n], |t.app|;
    assert head[..c] == t.app && head[c] == '#' && head[c + 1] == t.ns[0] && head[|head| - 1] == t.path[k - 1];
    assert head[c + 1..][0] == head[c + 1] && head[c + 1..][|head| - c - 2] == head[|head| - 1];
    assert Divides(head, c);
    other := ReadAt(text, n);
  }

  /** Two services that share a store: a `#` in an application's id and one in
      another service's namespace. */
  lemma ServicesCollide(path: string)
    requires Rooted(path)
    ensures var t, other := Target("a#b", "svc", POST, path), Target("a", "b#svc", POST, path);
            t.Formed() && other.Formed() && t.Text() == other.Text()
  {
    assert "a#b" + "#" + "svc" == "a" + "#" + "b#svc";
  }
}
