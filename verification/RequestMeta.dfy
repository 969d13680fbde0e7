/** The `request_meta` envelope of a request body (request/meta.go), and the
    encoding of projections it reads back (request/projection.go). */
module RequestMeta {
  import opened Wrappers
  import opened Text
  import opened JsonTrees
  import opened PropertyPaths

  const REQUEST_META := "request_meta"
  const MENTION := "\"request_meta\""

  /** JSON text is read and written by the standard library; what it writes it reads back. */
  datatype Codec = Codec(decode: string -> Option<Json>, encode: Json -> string)

  ghost predicate Sound(codec: Codec) {
    forall j :: codec.decode(codec.encode(j)) == Some(j)
  }

  datatype Meta = Meta(idempotencyKey: string, response: Option<ResponseProjection>)

  const NO_META := Meta("", None)

  datatype MetaError =
    | InvalidBody
    | TypeMismatch(path: string)
    | Invalid(path: string)
    | UnexpectedName(path: string)
    | BothModes(path: string)
    | NeitherMode(path: string)
    | NoPaths(path: string)

  // ------------------------------------------------------- what is accepted

  /** An absent member, or null. */
  predicate Nothing(fields: map<string, Json>, name: string) {
    name !in fields || fields[name].JNull?
  }

  /** `json.Unmarshal` into a list of strings: a null list is empty, a null
      element an empty string. */
  function StringsOf(raw: Json): Option<seq<string>> {
    match raw
    case JNull => Some([])
    case JArray(items) =>
      if forall i :: 0 <= i < |items| ==> items[i].JString? || items[i].JNull?
      then Some(seq(|items|, i requires 0 <= i < |items| => if items[i].JString? then items[i].s else ""))
      else None
    case _ => None
  }

  predicate OnlyModes(fields: map<string, Json>) {
    forall name :: name in fields ==> name == "pick" || name == "omit"
  }

  function SelectionOf(raw: Json): Option<PropertyProjection> {
    if !raw.JObject? || !OnlyModes(raw.fields) || ("pick" in raw.fields <==> "omit" in raw.fields) then None
    else
      var mode := if "pick" in raw.fields then Pick else Omit;
      match StringsOf(raw.fields[if "pick" in raw.fields then "pick" else "omit"])
      case None => None
      case Some(paths) => if ValidSelection(mode, paths) then Some(PropertyProjection(mode, TrimAll(paths))) else None
  }

  predicate ResourceAccepted(name: string, raw: Json) {
    ValidName(TrimSpace(name)) && SelectionOf(raw).Some?
  }

  function ResourcesOf(fields: map<string, Json>): Option<map<string, PropertyProjection>> {
    if forall r :: r in fields ==> ResourceAccepted(r, fields[r])
    then Some(map r | r in fields :: SelectionOf(fields[r]).value)
    else None
  }

  /** `resources` under trimmed names. */
  ghost function TrimmedResources(resources: map<string, PropertyProjection>): map<string, PropertyProjection>
    requires ValidResources(resources)
  {
    map r | r in resources :: TrimSpace(r) := resources[r]
  }

  /** The projection named by the `projection` member: none when there is no
      selection in it, an error (the outer none) when it is malformed. */
  ghost function ProjectionOf(fields: map<string, Json>): Option<Option<ResponseProjection>> {
    if Nothing(fields, "projection") then Some(None)
    else if !fields["projection"].JObject? then None
    else
      match ResourcesOf(fields["projection"].fields)
      case None => None
      case Some(resources) =>
        if resources == map[] then Some(None)
        else if ValidResources(resources) then Some(Some(ResponseProjection(TrimmedResources(resources))))
        else None
  }

  ghost function ResponseOf(fields: map<string, Json>): Option<Option<ResponseProjection>> {
    if Nothing(fields, "response") then Some(None)
    else if !fields["response"].JObject? then None
    else ProjectionOf(fields["response"].fields)
  }

  ghost function KeyOf(fields: map<string, Json>): Option<string> {
    if Nothing(fields, "idempotency_key") then Some("")
    else if fields["idempotency_key"].JString? then Some(fields["idempotency_key"].s)
    else None
  }

  /** What a body's members say about the request, or none if they are malformed. */
  ghost function MetaOf(fields: map<string, Json>): Option<Meta> {
    if Nothing(fields, REQUEST_META) then Some(NO_META)
    else if !fields[REQUEST_META].JObject? then None
    else
      var meta := fields[REQUEST_META].fields;
      if KeyOf(meta).None? || ResponseOf(meta).None? then None
      else Some(Meta(KeyOf(meta).value, ResponseOf(meta).value))
  }

  // ------------------------------------------------- what a body says

  /** A selection is an object with one member, named for the mode, that lists
      texts: the paths, which are valid and distinct when trimmed. */
  ghost predicate SaysSelection(raw: Json, selection: PropertyProjection) {
    exists name, texts: seq<string> ::
      raw.JObject? && raw.fields.Keys == {name} && Lists(raw.fields[name], texts) &&
      ((name == "pick" && selection.mode == Pick) || (name == "omit" && selection.mode == Omit)) &&
      ValidSelection(selection.mode, texts) && selection.paths == TrimAll(texts)
  }

  /** The array holds the texts and nothing else. */
  predicate Lists(raw: Json, texts: seq<string>) {
    raw.JArray? && |raw.items| == |texts| && forall i :: 0 <= i < |texts| ==> raw.items[i] == JString(texts[i])
  }

  lemma SelectionMeans(raw: Json, selection: PropertyProjection)
    ensures SelectionOf(raw) == Some(selection) <==> SaysSelection(raw, selection)
  {
    hide ValidPath, TrimSpace, DistinctStrings;
    assert "pick"[0] != "omit"[0];
    if SelectionOf(raw) == Some(selection) {
      var name := if "pick" in raw.fields then "pick" else "omit";
      var texts := StringsOf(raw.fields[name]).value;
      NoBlankPath(selection.mode, texts);
      assert raw.fields.Keys == {name};
      ListedTexts(raw.fields[name], texts);
      assert SaysSelection(raw, selection);
    }
    if name, texts: seq<string> :|
      raw.JObject? && raw.fields.Keys == {name} && Lists(raw.fields[name], texts) &&
      ((name == "pick" && selection.mode == Pick) || (name == "omit" && selection.mode == Omit)) &&
      ValidSelection(selection.mode, texts) && selection.paths == TrimAll(texts)
    {
      assert name in raw.fields.Keys && forall k :: k in raw.fields ==> k == name;
      TextsListed(raw.fields[name], texts);
    }
  }

  lemma TextsListed(raw: Json, texts: seq<string>)
    requires Lists(raw, texts)
    ensures StringsOf(raw) == Some(texts)
  {
    assert StringsOf(raw).value == texts;
  }

  /** A valid selection has no empty path, so it was read from texts alone. */
  lemma NoBlankPath(mode: Mode, texts: seq<string>)
    requires ValidSelection(mode, texts)
    ensures texts != [] && forall i :: 0 <= i < |texts| ==> texts[i] != ""
  {
    hide DistinctStrings;
    TrimmedIsFixed("");
  }

  lemma ListedTexts(raw: Json, texts: seq<string>)
    requires StringsOf(raw) == Some(texts) && texts != [] && forall i :: 0 <= i < |texts| ==> texts[i] != ""
    ensures Lists(raw, texts)
  {
  }

  /** The envelope's key and projection; a member that is absent or null says nothing. */
  ghost predicate SaysMeta(fields: map<string, Json>, meta: Meta) {
    if REQUEST_META !in fields || fields[REQUEST_META] == JNull then meta == NO_META
    else
      && fields[REQUEST_META].JObject?
      && SaysKey(fields[REQUEST_META].fields, meta.idempotencyKey)
      && SaysResponse(fields[REQUEST_META].fields, meta.response)
  }

  ghost predicate SaysKey(members: map<string, Json>, key: string) {
    if "idempotency_key" !in members || members["idempotency_key"] == JNull then key == ""
    else members["idempotency_key"] == JString(key)
  }

  ghost predicate SaysResponse(members: map<string, Json>, response: Option<ResponseProjection>) {
    if "response" !in members || members["response"] == JNull then response == None
    else members["response"].JObject? && SaysProjection(members["response"].fields, response)
  }

  /** Every resource's selection under the resource's trimmed name; without any there is no projection. */
  ghost predicate SaysProjection(members: map<string, Json>, response: Option<ResponseProjection>) {
    if "projection" !in members || members["projection"] == JNull then response == None
    else
      && members["projection"].JObject?
      && var named := members["projection"].fields;
         if named == map[] then response == None
         else response.Some? && SaysResources(named, response.value.resources)
  }

  ghost predicate SaysResources(named: map<string, Json>, resources: map<string, PropertyProjection>) {
    && (forall r :: r in named ==>
          ValidName(TrimSpace(r)) && TrimSpace(r) in resources && SaysSelection(named[r], resources[TrimSpace(r)]))
    && (forall r, q :: r in named && q in named && r != q ==> TrimSpace(r) != TrimSpace(q))
    && (forall n :: n in resources ==> exists r :: r in named && TrimSpace(r) == n)
  }

  lemma ResourcesMean(named: map<string, Json>, resources: map<string, PropertyProjection>)
    ensures SaysResources(named, resources) <==>
            ResourcesOf(named).Some? && ValidResources(ResourcesOf(named).value) &&
            resources == TrimmedResources(ResourcesOf(named).value)
  {
    hide SelectionOf, SaysSelection, ValidName, TrimSpace, SaysResources, ResourcesOf, ValidResources, TrimmedResources;
    if SaysResources(named, resources) { SaidResources(named, resources); }
    if ResourcesOf(named).Some? && ValidResources(ResourcesOf(named).value) { ReadResources(named, ResourcesOf(named).value); }
  }

  lemma SaidResources(named: map<string, Json>, resources: map<string, PropertyProjection>)
    requires SaysResources(named, resources)
    ensures ResourcesOf(named).Some? && ValidResources(ResourcesOf(named).value)
    ensures resources == TrimmedResources(ResourcesOf(named).value)
  {
    hide SelectionOf, SaysSelection, ValidName, TrimSpace;
    forall r | r in named ensures SelectionOf(named[r]) == Some(resources[TrimSpace(r)]) {
      SelectionMeans(named[r], resources[TrimSpace(r)]);
    }
    var found := ResourcesOf(named).value;
    assert found.Keys == named.Keys;
    assert resources.Keys == TrimmedResources(found).Keys;
  }

  lemma ReadResources(named: map<string, Json>, found: map<string, PropertyProjection>)
    requires ResourcesOf(named) == Some(found) && ValidResources(found)
    ensures SaysResources(named, TrimmedResources(found))
  {
    hide SelectionOf, SaysSelection, ValidName, TrimSpace;
    assert found.Keys == named.Keys;
    forall r | r in named ensures SaysSelection(named[r], found[r]) { SelectionMeans(named[r], found[r]); }
  }

  /** Reading the envelope yields what the body says. */
  lemma MetaMeans(fields: map<string, Json>, meta: Meta)
    ensures MetaOf(fields) == Some(meta) <==> SaysMeta(fields, meta)
  {
    hide ResourcesOf, SaysResources, ValidResources, TrimmedResources;
    if REQUEST_META in fields && fields[REQUEST_META].JObject? {
      ResponseMeans(fields[REQUEST_META].fields, meta.response);
    }
  }

  lemma ResponseMeans(members: map<string, Json>, response: Option<ResponseProjection>)
    ensures ResponseOf(members) == Some(response) <==> SaysResponse(members, response)
  {
    hide ResourcesOf, SaysResources, ValidResources, TrimmedResources;
    if "response" in members && members["response"].JObject? {
      var fields := members["response"].fields;
      if "projection" in fields && fields["projection"].JObject? {
        var named := fields["projection"].fields;
        NoResources(named);
        if response.Some? { ResourcesMean(named, response.value.resources); }
      }
    }
  }

  lemma NoResources(named: map<string, Json>)
    ensures ResourcesOf(named).Some? ==> (ResourcesOf(named).value == map[] <==> named == map[])
    ensures named == map[] ==> ResourcesOf(named) == Some(map[])
  {
    hide SelectionOf;
    if ResourcesOf(named).Some? { assert ResourcesOf(named).value.Keys == named.Keys; }
    if named == map[] { assert ResourcesOf(named).value == map[]; }
  }

  const PROJECTION := "request_meta.response.projection"

  /** What is wrong with a resource's selection; of several stray members any may be named. */
  ghost predicate Blames(resource: string, raw: Json, e: MetaError) {
    var path := PROJECTION + "." + resource;
    if !ValidName(TrimSpace(resource)) then e == Invalid(path)
    else if !raw.JObject? then e == TypeMismatch(path)
    else if !OnlyModes(raw.fields) then
      exists name :: name in raw.fields && name != "pick" && name != "omit" && e == UnexpectedName(path + "." + name)
    else if "pick" in raw.fields && "omit" in raw.fields then e == BothModes(path)
    else if "pick" !in raw.fields && "omit" !in raw.fields then e == NeitherMode(path)
    else
      var name := if "omit" in raw.fields then "omit" else "pick";
      match StringsOf(raw.fields[name])
      case None => e == TypeMismatch(path + "." + name)
      case Some(paths) => e == if paths == [] then MetaError.NoPaths(path + "." + name) else Invalid(path + "." + name)
  }

  /** What is wrong with a `projection` member; of several bad resources any may be named. */
  ghost predicate ProjectionBlames(fields: map<string, Json>, e: MetaError) {
    && !Nothing(fields, "projection")
    && if !fields["projection"].JObject? then e == TypeMismatch(PROJECTION)
       else
         var named := fields["projection"].fields;
         if ResourcesOf(named).Some? then !ValidResources(ResourcesOf(named).value) && e == Invalid(PROJECTION)
         else exists r :: r in named && !ResourceAccepted(r, named[r]) && Blames(r, named[r], e)
  }

  ghost predicate ResponseBlames(members: map<string, Json>, e: MetaError) {
    && !Nothing(members, "response")
    && if !members["response"].JObject? then e == TypeMismatch("request_meta.response")
       else ProjectionBlames(members["response"].fields, e)
  }

  /** What is wrong with the envelope: its own type, then the key, then the response part. */
  ghost predicate MetaBlames(fields: map<string, Json>, e: MetaError) {
    && !Nothing(fields, REQUEST_META)
    && if !fields[REQUEST_META].JObject? then e == TypeMismatch(REQUEST_META)
       else
         var members := fields[REQUEST_META].fields;
         if KeyOf(members).None? then e == TypeMismatch("request_meta.idempotency_key") else ResponseBlames(members, e)
  }

  // ------------------------------------------------------------- the parser

  /** `requestMetaParser`: every step does nothing once there is an error. */
  class MetaParser {
    var fields: map<string, Json>
    var meta: Meta
    var resources: map<string, PropertyProjection>
    var err: Option<MetaError>

    constructor (fields: map<string, Json>)
      ensures this.fields == fields && meta == NO_META && resources == map[] && err == None
    {
      this.fields, meta, resources, err := fields, NO_META, map[], None;
    }

    method ParseMeta()
      requires err == None && meta == NO_META && resources == map[]
      modifies this
      ensures fields == old(fields)
      ensures err.None? <==> MetaOf(fields).Some?
      ensures err.None? ==> meta == MetaOf(fields).value
      ensures err.Some? ==> MetaBlames(fields, err.value)
    {
      if Nothing(fields, REQUEST_META) { return; }
      if !fields[REQUEST_META].JObject? {
        err := Some(TypeMismatch(REQUEST_META));
        return;
      }
      var members := fields[REQUEST_META].fields;
      ParseIdempotencyKey(members);
      ParseResponse(members);
    }

    method ParseIdempotencyKey(members: map<string, Json>)
      requires err == None && meta == NO_META && resources == map[]
      modifies this
      ensures fields == old(fields) && resources == map[]
      ensures err.None? <==> KeyOf(members).Some?
      ensures meta == if err.None? then Meta(KeyOf(members).value, None) else old(meta)
      ensures err.Some? ==> err.value == TypeMismatch("request_meta.idempotency_key")
    {
      if Nothing(members, "idempotency_key") { return; }
      var raw := members["idempotency_key"];
      if !raw.JString? {
        err := Some(TypeMismatch("request_meta.idempotency_key"));
        return;
      }
      meta := meta.(idempotencyKey := raw.s);
    }

    method ParseResponse(members: map<string, Json>)
      requires meta.response == None && resources == map[]
      modifies this
      ensures fields == old(fields)
      ensures old(err).Some? ==> err == old(err)
      ensures old(err).None? ==> (err.None? <==> ResponseOf(members).Some?)
      ensures err.None? ==> meta == old(meta).(response := ResponseOf(members).value)
      ensures old(err).None? && err.Some? ==> ResponseBlames(members, err.value)
    {
      hide SelectionOf, ValidName, Blames, ResourceAccepted, ValidResources, Renamed, ResourcesOf, TrimSpace, TrimmedResources;
      if err.Some? || Nothing(members, "response") { return; }
      if !members["response"].JObject? {
        err := Some(TypeMismatch("request_meta.response"));
        return;
      }
      var response := members["response"].fields;
      ParseProjection(response);
      if err.None? && |resources| > 0 {
        var projection := DefineResponseProjection(resources);
        if projection.Err? {
          err := Some(Invalid(PROJECTION));
          return;
        }
        RenamedIsTrimmed(resources, projection.value.resources);
        meta := meta.(response := Some(projection.value));
      }
    }

    /** Takes the resources in any order, up to the first that is malformed. */
    method ParseProjection(response: map<string, Json>)
      requires err == None && resources == map[]
      modifies this
      ensures fields == old(fields) && meta == old(meta)
      ensures Nothing(response, "projection") ==> err == None && resources == map[]
      ensures !Nothing(response, "projection") ==>
        (err.None? <==> response["projection"].JObject? && ResourcesOf(response["projection"].fields).Some?)
      ensures !Nothing(response, "projection") && err.None? ==>
        resources == ResourcesOf(response["projection"].fields).value
      ensures err.Some? ==> ProjectionBlames(response, err.value)
    {
      hide SelectionOf, ValidName, TrimSpace, Blames;
      if Nothing(response, "projection") { return; }
      if !response["projection"].JObject? {
        err := Some(TypeMismatch(PROJECTION));
        return;
      }
      var named := response["projection"].fields;
      var left := named.Keys;
      while left != {}
        invariant left <= named.Keys && err == None && fields == old(fields) && meta == old(meta)
        invariant forall r :: r in named && r !in left ==> ResourceAccepted(r, named[r])
        invariant resources == map r | r in named && r !in left :: SelectionOf(named[r]).value
        decreases |left|
      {
        var resource :| resource in left;
        left := left - {resource};
        ParseResourceProjection(resource, named[resource]);
        if err.Some? { return; }
      }
      assert resources == map r | r in named :: SelectionOf(named[r]).value;
    }

    method ParseResourceProjection(resource: string, raw: Json)
      requires err == None
      modifies this
      ensures fields == old(fields) && meta == old(meta)
      ensures err.None? <==> ResourceAccepted(resource, raw)
      ensures err.Some? ==> Blames(resource, raw, err.value)
      ensures resources == if err.None? then old(resources)[resource := SelectionOf(raw).value] else old(resources)
    {
      hide ValidName, ValidSelection, TrimSpace;
      var path := PROJECTION + "." + resource;
      if !ValidName(TrimSpace(resource)) {
        err := Some(Invalid(path));
        return;
      }
      if !raw.JObject? {
        err := Some(TypeMismatch(path));
        return;
      }
      var selection := raw.fields;
      var left := selection.Keys;
      while left != {}
        invariant left <= selection.Keys
        invariant forall name :: name in selection && name !in left ==> name == "pick" || name == "omit"
        decreases |left|
      {
        var name :| name in left;
        left := left - {name};
        if name != "pick" && name != "omit" {
          err := Some(UnexpectedName(path + "." + name));
          return;
        }
      }
      var hasPick, hasOmit := "pick" in selection, "omit" in selection;
      if hasPick && hasOmit {
        err := Some(BothModes(path));
        return;
      }
      if !hasPick && !hasOmit {
        err := Some(NeitherMode(path));
        return;
      }
      var mode, name := Pick, "pick";
      if hasOmit { mode, name := Omit, "omit"; }
      var paths := StringsOf(selection[name]);
      if paths.None? {
        err := Some(TypeMismatch(path + "." + name));
        return;
      }
      if |paths.value| == 0 {
        err := Some(MetaError.NoPaths(path + "." + name));
        EmptySelection(mode);
        return;
      }
      var projection := DefinePropertyProjection(mode, paths.value);
      if projection.Err? {
        err := Some(Invalid(path + "." + name));
        return;
      }
      resources := resources[resource := projection.value];
    }
  }

  lemma EmptySelection(mode: Mode)
    ensures !ValidSelection(mode, [])
  {
  }

  lemma RenamedIsTrimmed(resources: map<string, PropertyProjection>, normalized: map<string, PropertyProjection>)
    requires ValidResources(resources) && Renamed(resources, normalized)
    ensures normalized == TrimmedResources(resources)
  {
    hide TrimSpace, ValidName;
    forall n | n in normalized ensures n in TrimmedResources(resources) && normalized[n] == TrimmedResources(resources)[n] {
      var r :| r in resources && TrimSpace(r) == n;
    }
  }

  // ------------------------------------------------------------ the request

  /** `bytes.Contains`. */
  predicate Contains(s: string, sub: string) {
    |sub| <= |s| && (s[..|sub|] == sub || (s != "" && Contains(s[1..], sub)))
  }

  predicate FoundAt(s: string, sub: string, i: nat) {
    i + |sub| <= |s| && s[i..i + |sub|] == sub
  }

  /** The text is found at some place. */
  lemma {:induction false} ContainsSomewhere(s: string, sub: string)
    ensures Contains(s, sub) <==> exists i :: FoundAt(s, sub, i)
  {
    if s == "" {
      assert Contains(s, sub) <==> FoundAt(s, sub, 0);
    } else {
      ContainsSomewhere(s[1..], sub);
      assert FoundAt(s, sub, 0) <==> |sub| <= |s| && s[..|sub|] == sub;
      if i: nat :| FoundAt(s[1..], sub, i) { FoundLater(s, sub, i); }
      if i: nat :| FoundAt(s, sub, i) {
        if i > 0 { FoundLater(s, sub, i - 1); }
      }
    }
  }

  lemma FoundLater(s: string, sub: string, i: nat)
    requires s != ""
    ensures FoundAt(s, sub, i + 1) <==> FoundAt(s[1..], sub, i)
  {
    if i + 1 + |sub| <= |s| { assert s[i + 1..i + 1 + |sub|] == s[1..][i..i + |sub|]; }
  }

  /** The body names `request_meta` somewhere, literally. */
  predicate Mentions(body: string) {
    TrimSpace(body) != "" && Contains(TrimSpace(body), MENTION)
  }

  class Req {
    const codec: Codec
    var body: string
    var meta: Meta
    var metaPrepared: bool

    constructor (codec: Codec, body: string)
      ensures this.codec == codec && this.body == body && meta == NO_META && !metaPrepared
    {
      this.codec, this.body, meta, metaPrepared := codec, body, NO_META, false;
    }

    /** The members of the body, if it is a JSON object. */
    ghost function Members(): Option<map<string, Json>>
      reads this`body
    {
      var decoded := codec.decode(body);
      if decoded.Some? && decoded.value.JObject? then Some(decoded.value.fields) else None
    }

    ghost predicate HasMetaMember()
      reads this`body
    {
      Members().Some? && REQUEST_META in Members().value
    }

    /** Attaches the metadata and takes `request_meta`, and nothing else, out of
        the body; changes nothing when it reports an error, and nothing when
        called again. */
    method PrepareMeta() returns (err: Option<MetaError>)
      modifies this
      ensures old(metaPrepared) ==> err == None && metaPrepared && meta == old(meta) && body == old(body)
      ensures !old(metaPrepared) && !Mentions(old(body)) ==>
        err == None && metaPrepared && meta == old(meta) && body == old(body)
      ensures !old(metaPrepared) && Mentions(old(body)) ==>
        (err == None <==> old(Members()).Some? && MetaOf(old(Members()).value).Some?)
      ensures !old(metaPrepared) && Mentions(old(body)) && err == None ==>
        metaPrepared && meta == MetaOf(old(Members()).value).value && SaysMeta(old(Members()).value, meta) &&
        body == (if REQUEST_META in old(Members()).value
                 then codec.encode(JObject(old(Members()).value - {REQUEST_META})) else old(body))
      ensures !old(metaPrepared) && err == None && Sound(codec) && old(HasMetaMember()) ==>
        Members().Some? && (HasMetaMember() <==> !Mentions(old(body)))
      ensures err.Some? ==>
        if old(Members()).None? then err.value == InvalidBody else MetaBlames(old(Members()).value, err.value)
      ensures err.Some? ==> metaPrepared == old(metaPrepared) && meta == old(meta) && body == old(body)
    {
      hide MetaOf, MetaBlames, TrimSpace, SaysMeta;
      if metaPrepared { return None; }
      if TrimSpace(body) == "" || !Contains(TrimSpace(body), MENTION) {
        metaPrepared := true;
        return None;
      }
      var decoded := codec.decode(body);
      if decoded.None? || !decoded.value.JObject? { return Some(InvalidBody); }
      var envelope := decoded.value.fields;
      var parser := new MetaParser(envelope);
      parser.ParseMeta();
      if parser.err.Some? { return parser.err; }
      MetaMeans(envelope, parser.meta);
      if REQUEST_META in envelope { body := codec.encode(JObject(envelope - {REQUEST_META})); }
      meta := parser.meta;
      metaPrepared := true;
      return None;
    }
  }

  /** A body that has been stripped has nothing more to strip: preparing it as a
      new request attaches nothing and leaves it as it is. */
  method PrepareStripped(codec: Codec, body: string) returns (second: Req)
    requires Sound(codec) && Mentions(body)
    requires codec.decode(body).Some? && codec.decode(body).value.JObject?
    requires MetaOf(codec.decode(body).value.fields).Some? && REQUEST_META in codec.decode(body).value.fields
    ensures second.metaPrepared && second.meta == NO_META
    ensures second.Members() == Some(codec.decode(body).value.fields - {REQUEST_META})
  {
    hide MetaOf, Mentions;
    var first := new Req(codec, body);
    var err := first.PrepareMeta();
    second := new Req(codec, first.body);
    ghost var rest := codec.decode(body).value.fields - {REQUEST_META};
    assert second.Members() == Some(rest);
    NoMetaMember(rest);
    err := second.PrepareMeta();
  }

  const ESCAPED_BODY := "{\"request\\u005fmeta\":{}}"

  /** A key written with an escape is the same key to the JSON package, and not
      to the textual test: the member is neither read nor taken out. */
  method EscapedKeyStays(codec: Codec) returns (req: Req)
    requires codec.decode(ESCAPED_BODY) == Some(JObject(map[REQUEST_META := JObject(map[])]))
    ensures req.metaPrepared && req.meta == NO_META && req.body == ESCAPED_BODY
    ensures req.Members() == Some(map[REQUEST_META := JObject(map[])])
  {
    hide Mentions, MetaOf;
    EscapedNotMentioned();
    req := new Req(codec, ESCAPED_BODY);
    var err := req.PrepareMeta();
  }

  lemma EscapedNotMentioned()
    ensures !Mentions(ESCAPED_BODY)
  {
    assert ESCAPED_BODY[0] == '{' && ESCAPED_BODY[|ESCAPED_BODY| - 1] == '}';
    TrimmedIsFixed(ESCAPED_BODY);
    assert '_' !in ESCAPED_BODY;
    assert MENTION[8] == '_';
    MissingCharacter(ESCAPED_BODY, MENTION, '_');
  }

  lemma {:induction false} MissingCharacter(s: string, sub: string, c: char)
    requires c in sub && c !in s
    ensures !Contains(s, sub)
  {
    if s != "" {
      assert forall i :: 0 <= i < |s| ==> s[i] != c;
      MissingCharacter(s[1..], sub, c);
    }
    var i :| 0 <= i < |sub| && sub[i] == c;
    assert |sub| <= |s| ==> s[..|sub|][i] == s[i] != c;
  }

  lemma NoMetaMember(fields: map<string, Json>)
    requires REQUEST_META !in fields
    ensures MetaOf(fields) == Some(NO_META)
  {
  }

  // ------------------------------------------------------------ round trip

  function ModeName(mode: Mode): string
    requires mode != NoMode
  {
    if mode == Pick then "pick" else "omit"
  }

  function StringArray(paths: seq<string>): Json {
    JArray(seq(|paths|, i requires 0 <= i < |paths| => JString(paths[i])))
  }

  /** `PropertyProjection.MarshalJSON`. */
  function EncodedSelection(selection: PropertyProjection): Json {
    if !selection.Defined() then JObject(map[])
    else JObject(map[ModeName(selection.mode) := StringArray(selection.paths)])
  }

  /** `ResponseProjection.MarshalJSON`. */
  function EncodedProjection(projection: ResponseProjection): Json {
    JObject(map r | r in projection.resources :: EncodedSelection(projection.resources[r]))
  }

  /** What the definitions let through. */
  ghost predicate WellDefined(projection: ResponseProjection) {
    forall r :: r in projection.resources ==>
      ValidName(r) &&
      var selection := projection.resources[r];
      selection.Defined() ==> ValidSelection(selection.mode, selection.paths) && TrimAll(selection.paths) == selection.paths
  }

  ghost predicate EverySelectionDefined(projection: ResponseProjection) {
    forall r :: r in projection.resources ==> projection.resources[r].Defined()
  }

  function EncodedMeta(meta: Meta): Json {
    var key: map<string, Json> := if meta.idempotencyKey == "" then map[] else map["idempotency_key" := JString(meta.idempotencyKey)];
    JObject(if meta.response.None? then key
            else key["response" := JObject(if meta.response.value.Defined()
                                           then map["projection" := EncodedProjection(meta.response.value)] else map[])])
  }

  lemma EncodedStrings(paths: seq<string>)
    ensures StringsOf(StringArray(paths)) == Some(paths)
  {
    assert StringsOf(StringArray(paths)).value == paths;
  }

  lemma SelectionReadsBack(selection: PropertyProjection)
    requires selection.Defined() ==>
      ValidSelection(selection.mode, selection.paths) && TrimAll(selection.paths) == selection.paths
    ensures SelectionOf(EncodedSelection(selection)) == if selection.Defined() then Some(selection) else None
  {
    hide ValidSelection, TrimAll;
    if selection.Defined() {
      EncodedStrings(selection.paths);
      assert "pick"[0] != "omit"[0];
    }
  }

  lemma ResourcesReadBack(projection: ResponseProjection)
    requires WellDefined(projection)
    ensures ResourcesOf(EncodedProjection(projection).fields) ==
            if EverySelectionDefined(projection) then Some(projection.resources) else None
  {
    hide SelectionOf, EncodedSelection, ValidSelection, TrimAll, ValidName, TrimSpace;
    var fields := EncodedProjection(projection).fields;
    forall r | r in fields
      ensures ResourceAccepted(r, fields[r]) <==> projection.resources[r].Defined()
      ensures projection.resources[r].Defined() ==> SelectionOf(fields[r]) == Some(projection.resources[r])
    {
      SelectionReadsBack(projection.resources[r]);
      ValidNamePlain(r);
      TrimmedIsFixed(r);
    }
    if EverySelectionDefined(projection) {
      assert (map r | r in fields :: SelectionOf(fields[r]).value) == projection.resources;
    } else {
      var r :| r in projection.resources && !projection.resources[r].Defined();
      assert r in fields && !ResourceAccepted(r, fields[r]);
    }
  }

  lemma NamesStay(projection: ResponseProjection)
    requires WellDefined(projection)
    ensures ValidResources(projection.resources) && TrimmedResources(projection.resources) == projection.resources
  {
    hide ValidSelection, TrimAll, ValidName, TrimSpace;
    forall r | r in projection.resources ensures TrimSpace(r) == r {
      ValidNamePlain(r);
      TrimmedIsFixed(r);
    }
  }

  /** Encoding metadata and reading it back through the envelope gives the same
      metadata if and only if every resource carries a selection (and a response
      part carries a projection). */
  lemma MetaReadsBack(meta: Meta, others: map<string, Json>)
    requires meta.response.Some? ==> WellDefined(meta.response.value)
    ensures MetaOf(others[REQUEST_META := EncodedMeta(meta)]) == Some(meta) <==>
            (meta.response.Some? ==> meta.response.value.Defined() && EverySelectionDefined(meta.response.value))
  {
    hide ResourcesOf, EncodedProjection, WellDefined, ValidResources, EverySelectionDefined;
    var fields := EncodedMeta(meta).fields;
    var all := others[REQUEST_META := EncodedMeta(meta)];
    assert all[REQUEST_META] == JObject(fields);
    assert KeyOf(fields) == Some(meta.idempotencyKey);
    assert meta.response.None? ==> ResponseOf(fields) == Some(None);
    if meta.response.Some? {
      ResponseReadsBack(meta.response.value, fields);
      assert MetaOf(all) == if ResponseOf(fields).None? then None else Some(Meta(meta.idempotencyKey, ResponseOf(fields).value));
    } else {
      assert MetaOf(all) == Some(meta);
    }
  }

  lemma ResponseReadsBack(projection: ResponseProjection, members: map<string, Json>)
    requires WellDefined(projection) && "response" in members
    requires members["response"] ==
      JObject(if projection.Defined() then map["projection" := EncodedProjection(projection)] else map[])
    ensures ResponseOf(members) ==
            if !projection.Defined() then Some(None)
            else if EverySelectionDefined(projection) then Some(Some(projection)) else None
  {
    hide ResourcesOf, WellDefined, ValidResources, TrimmedResources, EverySelectionDefined;
    if projection.Defined() {
      ResourcesReadBack(projection);
      NamesStay(projection);
      assert projection.resources != map[];
    }
  }
}
