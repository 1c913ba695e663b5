/**
 * Embed objects: the factory that turns a decoded oEmbed response into a
 * Photo, Video, Link or Rich object, the required-field check every object
 * runs on construction, attribute reads, and the renderings of the Photo,
 * Link and Rich variants.
 */
module EmbedObjects {
  import opened Outcomes
  import opened PhpValues

  datatype Kind = Photo | Video | Link | Rich

  /** The properties of a decoded response object. */
  type Payload = map<string, Value>

  datatype EmbedObject = EmbedObject(kind: Kind, payload: Payload)

  /** The table of object types: exact, case-sensitive names. */
  function TypeOf(name: string): (k: Option<Kind>)
    ensures k == Some(Photo) <==> name == "photo"
    ensures k == Some(Video) <==> name == "video"
    ensures k == Some(Link) <==> name == "link"
    ensures k == Some(Rich) <==> name == "rich"
  {
    if name == "photo" then Some(Photo)
    else if name == "video" then Some(Video)
    else if name == "link" then Some(Link)
    else if name == "rich" then Some(Rich)
    else None
  }

  function ClassName(k: Kind): string
  {
    "\\Omlex\\Object\\" + match k
      case Photo => "Photo"
      case Video => "Video"
      case Link => "Link"
      case Rich => "Rich"
  }

  const NoTypeMessage := "The object has no type."

  function UnknownTypeMessage(t: string): string
  {
    "The object type \"" + t + "\" is unknown or invalid."
  }

  function ClassNotFoundMessage(k: Kind): string
  {
    "The object class \"" + ClassName(k) + "\" is invalid or not found."
  }

  function MissingMessage(field: string): string
  {
    "Object is missing required \"" + field + "\" attribute"
  }

  // ------------------------------------------------------------ attributes

  /** `__get`: the property's value, or null when the payload has no such property. */
  function Get(p: Payload, field: string): Value
  {
    if field in p then p[field] else Null
  }

  /** `__isset`: the property exists and is not null. */
  predicate IsSet(p: Payload, field: string)
  {
    field in p && p[field] != Null
  }

  /** Reads never fail, and a property is set exactly when reading it gives something other than null. */
  lemma GetIsSet(p: Payload, field: string)
    ensures IsSet(p, field) <==> Get(p, field) != Null
    ensures field !in p ==> Get(p, field) == Null
    ensures field in p ==> Get(p, field) == p[field]
  {
  }

  // -------------------------------------------------------- required fields

  /**
   * The fields a variant declares as required. The Video class is not part
   * of this model, so its list is a parameter.
   */
  function DeclaredRequired(k: Kind, videoRequired: seq<string>): seq<string>
  {
    match k
    case Photo => ["url", "width", "height"]
    case Rich => ["html", "width", "height"]
    case Link => []
    case Video => videoRequired
  }

  /** The list the constructor checks: the declared fields, then `version`. */
  function Required(k: Kind, videoRequired: seq<string>): (r: seq<string>)
    ensures |r| == |DeclaredRequired(k, videoRequired)| + 1
    ensures r[..|r| - 1] == DeclaredRequired(k, videoRequired)
    ensures r[|r| - 1] == "version"
  {
    DeclaredRequired(k, videoRequired) + ["version"]
  }

  /** The position of the first field of `fields` that is not set, or `|fields|`. */
  function FirstUnset(p: Payload, fields: seq<string>): (i: nat)
    ensures i <= |fields|
    ensures forall j :: 0 <= j < i ==> IsSet(p, fields[j])
    ensures i < |fields| ==> !IsSet(p, fields[i])
    decreases |fields|
  {
    if |fields| == 0 then 0
    else if !IsSet(p, fields[0]) then 0
    else 1 + FirstUnset(p, fields[1..])
  }

  /** The three properties in the contract of `FirstUnset` determine it. */
  lemma {:induction false} FirstUnsetUnique(p: Payload, fields: seq<string>, i: nat)
    requires i <= |fields|
    requires forall j :: 0 <= j < i ==> IsSet(p, fields[j])
    requires i < |fields| ==> !IsSet(p, fields[i])
    ensures FirstUnset(p, fields) == i
    decreases |fields|
  {
    if |fields| > 0 && i > 0 {
      FirstUnsetUnique(p, fields[1..], i - 1);
    }
  }

  /**
   * The outcome of constructing a variant: it succeeds, wrapping the payload
   * unchanged, exactly when every required field is set; otherwise it fails
   * naming the first required field, in list order, that is not set.
   */
  function Validate(k: Kind, p: Payload, videoRequired: seq<string>): (r: Result<EmbedObject>)
    ensures r.Ok? <==> forall j :: 0 <= j < |Required(k, videoRequired)| ==> IsSet(p, Required(k, videoRequired)[j])
    ensures r.Ok? ==> r.value == EmbedObject(k, p)
    ensures r.Err? ==> exists i :: 0 <= i < |Required(k, videoRequired)| &&
                                   !IsSet(p, Required(k, videoRequired)[i]) &&
                                   (forall j :: 0 <= j < i ==> IsSet(p, Required(k, videoRequired)[j])) &&
                                   r.error == ObjectException(MissingMessage(Required(k, videoRequired)[i]))
  {
    var req := Required(k, videoRequired);
    var i := FirstUnset(p, req);
    if i == |req| then Ok(EmbedObject(k, p)) else Err(ObjectException(MissingMessage(req[i])))
  }

  /** `Common::__construct`: append `version`, then stop at the first required field that is not set. */
  method Construct(k: Kind, p: Payload, videoRequired: seq<string>) returns (r: Result<EmbedObject>)
    ensures r == Validate(k, p, videoRequired)
  {
    var required := DeclaredRequired(k, videoRequired);
    required := required + ["version"];
    var i := 0;
    while i < |required|
      invariant 0 <= i <= |required|
      invariant required == Required(k, videoRequired)
      invariant forall j :: 0 <= j < i ==> IsSet(p, required[j])
    {
      if !IsSet(p, required[i]) {
        assert FirstUnset(p, required) == i;
        return Err(ObjectException(MissingMessage(required[i])));
      }
      i := i + 1;
    }
    assert FirstUnset(p, required) == |required|;
    return Ok(EmbedObject(k, p));
  }

  // ---------------------------------------------------------------- factory

  /**
   * `Object::factory`. `videoRequired` is the Video class's required list,
   * or `None` when that class cannot be loaded.
   */
  function Factory(v: Value, videoRequired: Option<seq<string>>): (r: Result<EmbedObject>)
    ensures r == Err(ObjectException(NoTypeMessage)) <==> !(v.Obj? && IsSet(v.fields, "type"))
    ensures r.Ok? ==> v.Obj? && IsSet(v.fields, "type") && r.value.payload == v.fields &&
                      ToStr(v.fields["type"]) == Ok(match r.value.kind
                                                      case Photo => "photo"
                                                      case Video => "video"
                                                      case Link => "link"
                                                      case Rich => "rich")
    ensures v.Obj? && IsSet(v.fields, "type") && ToStr(v.fields["type"]).Ok? &&
            TypeOf(ToStr(v.fields["type"]).value).None? ==>
              r == Err(NoSupportException(UnknownTypeMessage(ToStr(v.fields["type"]).value)))
    ensures v.Obj? && IsSet(v.fields, "type") && ToStr(v.fields["type"]) == Ok("video") && videoRequired.None? ==>
              r == Err(ObjectException(ClassNotFoundMessage(Video)))
  {
    if !(v.Obj? && IsSet(v.fields, "type")) then Err(ObjectException(NoTypeMessage))
    else
      var t :- ToStr(v.fields["type"]);
      match TypeOf(t)
      case None => Err(NoSupportException(UnknownTypeMessage(t)))
      case Some(k) =>
        if k == Video && videoRequired.None? then Err(ObjectException(ClassNotFoundMessage(k)))
        else Validate(k, v.fields, if videoRequired.Some? then videoRequired.value else [])
  }

  /** A known type builds the variant it names, provided every required field is set. */
  lemma FactoryBuildsKnownType(fields: Payload, k: Kind, name: string, videoRequired: Option<seq<string>>)
    requires TypeOf(name) == Some(k)
    requires k == Video ==> videoRequired.Some?
    requires "type" in fields && fields["type"] == Str(name)
    ensures Factory(Obj(fields), videoRequired) ==
            Validate(k, fields, if videoRequired.Some? then videoRequired.value else [])
  {
  }

  /** `version` is always the last field checked: with every declared field set, a missing version is named. */
  lemma VersionCheckedLast(k: Kind, p: Payload, videoRequired: seq<string>)
    requires forall f :: f in DeclaredRequired(k, videoRequired) ==> IsSet(p, f)
    requires !IsSet(p, "version")
    ensures Validate(k, p, videoRequired) == Err(ObjectException(MissingMessage("version")))
  {
    var req := Required(k, videoRequired);
    assert forall j :: 0 <= j < |req| - 1 ==> req[j] in DeclaredRequired(k, videoRequired);
  }

  // -------------------------------------------------------------- rendering

  /** `Photo::__toString`: an `img` tag; an unset title gives an empty `alt`. Values are not escaped. */
  function RenderPhoto(p: Payload): (r: Result<string>)
    ensures r.Err? <==> Get(p, "url").Obj? || Get(p, "width").Obj? || Get(p, "height").Obj? ||
                        (IsSet(p, "title") && p["title"].Obj?)
  {
    var title := if IsSet(p, "title") then Get(p, "title") else Null;
    var u :- ToStr(Get(p, "url"));
    var w :- ToStr(Get(p, "width"));
    var h :- ToStr(Get(p, "height"));
    var t :- ToStr(title);
    Ok("<img src=\"" + u + "\" width=\"" + w + "\" height=\"" + h + "\" alt=\"" + t + "\" />")
  }

  /** `Link::__toString`: an `a` tag; an absent url or title is empty text. Values are not escaped. */
  function RenderLink(p: Payload): (r: Result<string>)
    ensures r.Err? <==> Get(p, "url").Obj? || Get(p, "title").Obj?
  {
    var u :- ToStr(Get(p, "url"));
    var t :- ToStr(Get(p, "title"));
    Ok("<a href=\"" + u + "\">" + t + "</a>")
  }

  const RichNotStringMessage := "Method Omlex\\Object\\Rich::__toString() must return a string value"

  /** `Rich::__toString`: the `html` property verbatim; PHP rejects a `__toString` that returns a non-string. */
  function RenderRich(p: Payload): (r: Result<string>)
    ensures Get(p, "html").Str? ==> r == Ok(Get(p, "html").s)
    ensures !Get(p, "html").Str? ==> r == Err(ConversionError(RichNotStringMessage))
  {
    match Get(p, "html")
    case Str(s) => Ok(s)
    case _ => Err(ConversionError(RichNotStringMessage))
  }

  /** An unset title renders exactly as an empty one. */
  lemma PhotoUnsetTitleIsEmpty(p: Payload)
    requires !IsSet(p, "title")
    ensures RenderPhoto(p) == RenderPhoto(p["title" := Str("")])
  {
    var q := p["title" := Str("")];
    assert Get(q, "url") == Get(p, "url");
    assert Get(q, "width") == Get(p, "width");
    assert Get(q, "height") == Get(p, "height");
  }

  /** An absent url or title renders exactly as an empty one; it is not an error. */
  lemma LinkAbsentIsEmpty(p: Payload, field: string)
    requires field == "url" || field == "title"
    requires field !in p
    ensures RenderLink(p) == RenderLink(p[field := Str("")])
  {
    var q := p[field := Str("")];
    if field == "url" {
      assert Get(q, "title") == Get(p, "title");
    } else {
      assert Get(q, "url") == Get(p, "url");
    }
  }

  // --------------------------------------------------------------- examples

  lemma DecimalExamples()
    ensures IntToDecimal(100) == "100"
    ensures IntToDecimal(50) == "50"
  {
    assert NatToDecimal(10) == "10";
  }

  /** A photo response with every required field set builds a Photo. */
  lemma PhotoBuilds(fields: Payload, videoRequired: Option<seq<string>>)
    requires "type" in fields && fields["type"] == Str("photo")
    requires IsSet(fields, "url") && IsSet(fields, "width") && IsSet(fields, "height") && IsSet(fields, "version")
    ensures Factory(Obj(fields), videoRequired) == Ok(EmbedObject(Photo, fields))
  {
    FactoryBuildsKnownType(fields, Photo, "photo", videoRequired);
    var req := Required(Photo, []);
    assert req == ["url", "width", "height", "version"];
    FirstUnsetUnique(fields, req, 4);
  }

  /** The `img` tag of a photo whose url, width, height and title convert to `u`, `w`, `h` and `t`. */
  function PhotoTag(u: string, w: string, h: string, t: string): string
  {
    "<img src=\"" + u + "\" width=\"" + w + "\" height=\"" + h + "\" alt=\"" + t + "\" />"
  }

  /** A photo renders as long as its values convert; the title counts only when set. */
  lemma PhotoRendersTag(p: Payload, u: string, w: string, h: string, t: string)
    requires ToStr(Get(p, "url")) == Ok(u) && ToStr(Get(p, "width")) == Ok(w) && ToStr(Get(p, "height")) == Ok(h)
    requires if IsSet(p, "title") then ToStr(p["title"]) == Ok(t) else t == ""
    ensures RenderPhoto(p) == Ok(PhotoTag(u, w, h, t))
  {
  }

  /** A link renders as an `a` tag carrying its converted url and title, in that order. */
  lemma LinkRendersTag(p: Payload, u: string, t: string)
    requires ToStr(Get(p, "url")) == Ok(u) && ToStr(Get(p, "title")) == Ok(t)
    ensures RenderLink(p) == Ok("<a href=\"" + u + "\">" + t + "</a>")
  {
  }

  /** A link with a url and no title renders an empty anchor text. */
  lemma LinkTagExample()
    ensures RenderLink(map["url" := Str("http://x.com/")]) == Ok("<a href=\"http://x.com/\"></a>")
  {
    var p := map["url" := Str("http://x.com/")];
    assert Get(p, "url") == Str("http://x.com/");
    assert Get(p, "title") == Null;
    LinkRendersTag(p, "http://x.com/", "");
    assert "<a href=\"" + "http://x.com/" + "\">" + "" + "</a>" == "<a href=\"http://x.com/\"></a>";
  }

  lemma PhotoTagExample()
    ensures PhotoTag("u", "100", "50", "") == "<img src=\"u\" width=\"100\" height=\"50\" alt=\"\" />"
  {
  }

  /** A complete photo response builds a Photo whose tag carries its url, width and height, and an empty `alt`. */
  lemma PhotoResponseExample(fields: Payload, videoRequired: Option<seq<string>>)
    requires fields == map["type" := Str("photo"), "version" := Str("1.0"), "url" := Str("u"),
                           "width" := Int(100), "height" := Int(50)]
    ensures Factory(Obj(fields), videoRequired) == Ok(EmbedObject(Photo, fields))
    ensures RenderPhoto(fields) == Ok("<img src=\"u\" width=\"100\" height=\"50\" alt=\"\" />")
  {
    assert fields["type"] == Str("photo") && fields["version"] == Str("1.0");
    assert Get(fields, "url") == Str("u");
    assert Get(fields, "width") == Int(100);
    assert Get(fields, "height") == Int(50);
    assert "title" !in fields;
    PhotoBuilds(fields, videoRequired);
    DecimalExamples();
    PhotoRendersTag(fields, "u", "100", "50", "");
    PhotoTagExample();
  }

  /** An unknown type name is reported as unsupported, whatever else the response holds. */
  lemma UnknownTypeExample(videoRequired: Option<seq<string>>)
    ensures Factory(Obj(map["type" := Str("carousel"), "version" := Str("1.0")]), videoRequired) ==
            Err(NoSupportException(UnknownTypeMessage("carousel")))
  {
  }

  /** A photo with a url but no width names `width`, the first required field it lacks. */
  lemma PhotoMissingWidth(p: Payload)
    requires IsSet(p, "url") && !IsSet(p, "width")
    ensures Validate(Photo, p, []) == Err(ObjectException(MissingMessage("width")))
  {
    var req := Required(Photo, []);
    assert req == ["url", "width", "height", "version"];
    FirstUnsetUnique(p, req, 1);
  }

  /** A rich response without html names `html`, the first field on its list. */
  lemma RichMissingHtml(p: Payload)
    requires !IsSet(p, "html")
    ensures Validate(Rich, p, []) == Err(ObjectException(MissingMessage("html")))
  {
    assert Required(Rich, []) == ["html", "width", "height", "version"];
  }

  /** A response without a type is never reported as unsupported. */
  lemma NoTypeIsNotUnsupported(v: Value, videoRequired: Option<seq<string>>)
    requires !(v.Obj? && IsSet(v.fields, "type"))
    ensures !(Factory(v, videoRequired).Err? && Factory(v, videoRequired).error.NoSupportException?)
  {
  }
}
