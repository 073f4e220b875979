/** The admin site-settings form: nested edits of one section field, one
    social link, one contact template and one static page, and the
    Cloudinary status line. Each edit computes the next settings record
    from the previous one by spreads. */
module SiteSettingsPage {
  import opened Wrappers
  import opened Js

  /** What an input bound to `settings[section][field]` displays. */
  function FieldShown(settings: Record, section: string, field: string): Value
  {
    OptProp(Get(settings, section), field)
  }

  /** `handleChange(section, field, value)`: the section is rebuilt from its
      own properties with `field` set; every other key is kept. */
  function HandleChange(settings: Record, section: string, field: string, value: Value): (r: Record)
    ensures Get(r, section) == Obj(Spread(Get(settings, section))[field := value])
    ensures forall k :: k != section ==> Get(r, k) == Get(settings, k)
    ensures forall f :: f != field && Get(settings, section).Obj? ==>
              Get(Get(r, section).fields, f) == Get(Get(settings, section).fields, f)
  {
    settings[section := Obj(Spread(Get(settings, section))[field := value])]
  }

  /** An edit is what the edited input shows next, and a second edit of
      the same field replaces the first. */
  lemma HandleChangeShown(settings: Record, section: string, field: string, v: Value, w: Value)
    ensures FieldShown(HandleChange(settings, section, field, v), section, field) == v
    ensures HandleChange(HandleChange(settings, section, field, v), section, field, w)
         == HandleChange(settings, section, field, w)
  {
    var once := HandleChange(settings, section, field, v);
    assert Spread(Get(once, section))[field := w] == Spread(Get(settings, section))[field := w];
  }

  /** `handleSocialChange(platform, value)`: `branding.social[platform]`
      is set, the rest of `branding` and of `social` kept. Reading
      `prev.branding.social` throws when there is no branding section. */
  function HandleSocialChange(settings: Record, platform: string, value: Value): (r: Result<Record>)
    ensures r.Failure? <==> IsNullish(Get(settings, "branding"))
    ensures r.Success? ==>
      && (forall k :: k != "branding" ==> Get(r.value, k) == Get(settings, k))
      && Get(r.value, "branding").Obj?
      && (forall f :: f != "social" ==> Get(Get(r.value, "branding").fields, f) == Get(Spread(Get(settings, "branding")), f))
      && Get(Get(r.value, "branding").fields, "social") == Obj(Spread(OptProp(Get(settings, "branding"), "social"))[platform := value])
  {
    var branding := Get(settings, "branding");
    match Prop(branding, "social")
    case Failure(e) => Failure(e)
    case Success(social) =>
      Success(settings["branding" := Obj(Spread(branding)["social" := Obj(Spread(social)[platform := value])])])
  }

  /** The link a social input shows: `branding.social[platform]`. */
  function SocialShown(settings: Record, platform: string): Value
  {
    OptProp(OptProp(Get(settings, "branding"), "social"), platform)
  }

  /** A social edit is what that input shows next; when the links are an
      object (or not there yet) it leaves every other platform's link as
      it was. */
  lemma SocialChangeShown(settings: Record, platform: string, other: string, v: Value)
    requires HandleSocialChange(settings, platform, v).Success?
    requires other != platform
    ensures SocialShown(HandleSocialChange(settings, platform, v).value, platform) == v
    ensures var social := OptProp(Get(settings, "branding"), "social");
      social.Obj? || IsNullish(social) ==>
        SocialShown(HandleSocialChange(settings, platform, v).value, other) == SocialShown(settings, other)
  {
  }

  /** The contact templates as `[...(formData.contactTemplates || [])]`
      copies them: an array element by element, a string character by
      character; a truthy value that is not iterable throws. */
  function TemplateCopy(templates: Value): (r: Result<seq<Value>>)
    ensures !Truthy(templates) ==> r == Success([])
    ensures templates.Arr? ==> r == Success(templates.elems)
    ensures r.Failure? <==> Truthy(templates) && !templates.Arr? && !templates.Str?
  {
    if !Truthy(templates) then Success([])
    else match templates
      case Arr(es) => Success(es)
      case Str(s) => Success(Characters(s))
      case _ => Failure("contactTemplates is not iterable")
  }

  /** `newTemplates[index] = value` on a copy: an index inside the list
      replaces one slot; an index past the end grows the list to
      `index + 1`, the gap reading as `undefined`. */
  function SetSlot(t: seq<Value>, index: nat, value: Value): (r: seq<Value>)
    ensures |r| == if index < |t| then |t| else index + 1
    ensures r[index] == value
    ensures forall j :: 0 <= j < |t| && j != index ==> r[j] == t[j]
    ensures forall j :: |t| <= j < |r| && j != index ==> r[j] == Undefined
  {
    if index < |t| then t[index := value]
    else t + seq(index - |t|, _ => Undefined) + [value]
  }

  /** `handleTemplateChange(index, value)`. */
  function HandleTemplateChange(settings: Record, index: nat, value: Value): (r: Result<Record>)
    ensures r.Failure? <==> TemplateCopy(Get(settings, "contactTemplates")).Failure?
    ensures r.Success? ==>
      && (forall k :: k != "contactTemplates" ==> Get(r.value, k) == Get(settings, k))
      && Get(r.value, "contactTemplates") == Arr(SetSlot(TemplateCopy(Get(settings, "contactTemplates")).value, index, value))
  {
    match TemplateCopy(Get(settings, "contactTemplates"))
    case Failure(e) => Failure(e)
    case Success(t) => Success(settings["contactTemplates" := Arr(SetSlot(t, index, value))])
  }

  /** For the templates the page lists (an array, edited at one of its own
      positions), an edit replaces exactly that template and keeps the
      number of templates. */
  lemma TemplateChangeInRange(settings: Record, index: nat, value: Value)
    requires Get(settings, "contactTemplates").Arr?
    requires index < |Get(settings, "contactTemplates").elems|
    ensures var r := HandleTemplateChange(settings, index, value);
      && r.Success?
      && var t := Get(settings, "contactTemplates").elems;
      && var u := Get(r.value, "contactTemplates").elems;
      && |u| == |t|
      && u[index] == value
      && (forall j :: 0 <= j < |t| && j != index ==> u[j] == t[j])
  {
  }

  // --------------------------------------------------------------- pages

  /** The two inputs of each static page. */
  datatype PageField = Title | Content
  {
    function Key(): string
    {
      match this
      case Title => "title"
      case Content => "content"
    }
  }

  /** The pages the tab lists. */
  const PAGES: seq<string> := ["about", "terms", "privacy", "contact"]

  /** What a page input shows: `formData.pages?.[page]?.[key] || ''`. */
  function PageShown(settings: Record, page: string, f: PageField): Value
  {
    var v := OptProp(OptProp(Get(settings, "pages"), page), f.Key());
    if Truthy(v) then v else Str("")
  }

  /** The page inputs' change handler: `pages[page][key]` set to the typed
      text, every other page and the page's other field kept. Reading
      `prev.pages[page]` throws when there is no pages section. */
  function EditPage(settings: Record, page: string, f: PageField, text: string): (r: Result<Record>)
    ensures r.Failure? <==> IsNullish(Get(settings, "pages"))
    ensures r.Success? ==>
      && (forall k :: k != "pages" ==> Get(r.value, k) == Get(settings, k))
      && Get(r.value, "pages").Obj?
      && (forall p :: p != page ==> Get(Get(r.value, "pages").fields, p) == Get(Spread(Get(settings, "pages")), p))
      && Get(Get(r.value, "pages").fields, page) == Obj(Spread(OptProp(Get(settings, "pages"), page))[f.Key() := Str(text)])
  {
    var pages := Get(settings, "pages");
    match Prop(pages, page)
    case Failure(e) => Failure(e)
    case Success(current) =>
      Success(settings["pages" := Obj(Spread(pages)[page := Obj(Spread(current)[f.Key() := Str(text)])])])
  }

  /** The typed text is what the edited input shows next; the page's other
      input and every other page's inputs show what they showed. */
  lemma EditPageShown(settings: Record, page: string, f: PageField, g: PageField, other: string, text: string)
    requires Get(settings, "pages").Obj?
    requires g != f && other != page
    ensures EditPage(settings, page, f, text).Success?
    ensures var r := EditPage(settings, page, f, text).value;
      && PageShown(r, page, f) == Str(text)
      && PageShown(r, page, g) == PageShown(settings, page, g)
      && PageShown(r, other, f) == PageShown(settings, other, f)
      && PageShown(r, other, g) == PageShown(settings, other, g)
  {
    var pages := Get(settings, "pages");
    var current := Get(pages.fields, page);
    assert g.Key() != f.Key();
    if !IsNullish(current) && !current.Obj? {
      assert OptProp(current, g.Key()) == Undefined;
    }
  }

  // ------------------------------------------------------------- plugins

  /** The Cloudinary status badge. */
  function CloudinaryStatus(settings: Record): string
  {
    if Truthy(OptProp(Get(settings, "cloudinary"), "cloudName")) then "Connected" else "Not Connected"
  }

  /** The badge says Connected exactly when a cloud name is configured:
      for a text cloud name, exactly when it is non-empty; with no
      cloudinary section it says Not Connected. */
  lemma CloudinaryStatusSpec(settings: Record, name: string)
    ensures CloudinaryStatus(settings) == "Connected" <==> Truthy(OptProp(Get(settings, "cloudinary"), "cloudName"))
    ensures CloudinaryStatus(settings) == "Connected" || CloudinaryStatus(settings) == "Not Connected"
    ensures IsNullish(Get(settings, "cloudinary")) ==> CloudinaryStatus(settings) == "Not Connected"
    ensures var s := settings["cloudinary" := Obj(map["cloudName" := Str(name)])];
      CloudinaryStatus(s) == "Connected" <==> name != []
  {
  }
}
