/** The site configuration handlers: reading the single config document
    (created with defaults on first read) and updating it (created from the
    body on first write). */
module ConfigController {
  import opened Common
  import opened Text
  import opened Validators
  import opened Store
  import opened SiteConfigModel

  /** `req.body.socialLinks`: an object whose links may be absent. */
  datatype LinksInput = LinksInput(instagram: Option<string>, youtube: Option<string>, vimeo: Option<string>)

  /** The body of PUT /api/config. */
  datatype ConfigPatch = ConfigPatch(contactEmail: Option<string>, socialLinks: Option<LinksInput>)

  /** The document the first read creates: the environment's address, or
      the fallback when the environment gives none (or an empty one), and
      no links. */
  function DefaultConfig(envDefault: Option<string>): SiteConfig {
    Make(OrElse(envDefault, FallbackContactEmail), NoLinks)
  }

  /** Without an address in the environment the default document passes
      the schema. */
  lemma DefaultWithoutEnvIsValid(envDefault: Option<string>)
    requires !Truthy(envDefault)
    ensures Valid(DefaultConfig(envDefault))
  {
    FallbackIsValid();
  }

  /** GET /api/config. An existing document is answered unchanged; without
      one the default is created, which fails (`server_error`, nothing
      stored) only if the environment's address does not validate. */
  method GetConfig(db: ContentStore, envDefault: Option<string>) returns (res: Code, config: Option<SiteConfig>)
    requires db.Valid()
    modifies db`config
    ensures db.Valid()
    ensures old(db.config).Some? ==> res == Ok && config == old(db.config) && db.config == old(db.config)
    ensures old(db.config).None? ==>
      && (res == Ok <==> Valid(DefaultConfig(envDefault)))
      && (res == Ok ==> config == Some(DefaultConfig(envDefault)) && db.config == config)
      && (res != Ok ==> res == ServerError && config == None && db.config == None)
    ensures old(db.config).None? && !Truthy(envDefault) ==> res == Ok
  {
    if db.config.Some? {
      return Ok, db.config;
    }
    if !Truthy(envDefault) {
      DefaultWithoutEnvIsValid(envDefault);
    }
    var c := DefaultConfig(envDefault);
    if !Valid(c) {
      return ServerError, None;
    }
    db.SetConfig(c);
    res, config := Ok, Some(c);
  }

  /** `body.socialLinks?.<link> || ''` for each link. */
  function LinksOrEmpty(links: Option<LinksInput>): SocialLinks {
    if links.None? then NoLinks
    else SocialLinks(OrElse(links.value.instagram, ""), OrElse(links.value.youtube, ""), OrElse(links.value.vimeo, ""))
  }

  /** The document the first write creates: the body's address, else the
      environment's, else the fallback; each link from the body or empty. */
  function FirstWrite(body: ConfigPatch, envDefault: Option<string>): SiteConfig {
    Make(OrElse(body.contactEmail, OrElse(envDefault, FallbackContactEmail)), LinksOrEmpty(body.socialLinks))
  }

  /** An update of the stored document: the address with `||`, each link
      with `!== undefined` when a links object is given (so an empty string
      clears a link), the trim setters on every assigned string. */
  function Updated(c: SiteConfig, body: ConfigPatch): SiteConfig {
    var links := if body.socialLinks.None? then c.socialLinks
      else SocialLinks(IfDefined(body.socialLinks.value.instagram, c.socialLinks.instagram),
                       IfDefined(body.socialLinks.value.youtube, c.socialLinks.youtube),
                       IfDefined(body.socialLinks.value.vimeo, c.socialLinks.vimeo));
    Make(OrElse(body.contactEmail, c.contactEmail), links)
  }

  /** An update keeps what the body leaves out: an empty body changes
      nothing, a body without links keeps the links, a body without an
      address keeps the address, a links object keeps each link it leaves
      undefined; a truthy address and each defined link, even an empty
      one, replace the stored value, trimmed. */
  lemma UpdateKeepsOmitted(c: SiteConfig, body: ConfigPatch)
    requires Stored(c)
    ensures !Truthy(body.contactEmail) ==> Updated(c, body).contactEmail == c.contactEmail
    ensures Truthy(body.contactEmail) ==> Updated(c, body).contactEmail == Trim(body.contactEmail.value)
    ensures body.socialLinks.None? ==> Updated(c, body).socialLinks == c.socialLinks
    ensures body.socialLinks.Some? ==>
      var given, links := body.socialLinks.value, Updated(c, body).socialLinks;
      && links.instagram == (if given.instagram.Some? then Trim(given.instagram.value) else c.socialLinks.instagram)
      && links.youtube == (if given.youtube.Some? then Trim(given.youtube.value) else c.socialLinks.youtube)
      && links.vimeo == (if given.vimeo.Some? then Trim(given.vimeo.value) else c.socialLinks.vimeo)
    ensures !Truthy(body.contactEmail) && body.socialLinks.None? ==> Updated(c, body) == c
  {
    TrimmedIsFixed(c.contactEmail);
    TrimmedIsFixed(c.socialLinks.instagram);
    TrimmedIsFixed(c.socialLinks.youtube);
    TrimmedIsFixed(c.socialLinks.vimeo);
  }

  /** PUT /api/config. The document is created from the body when there is
      none, and updated otherwise; `save` then validates the address, and a
      rejected document is `server_error` with nothing stored. */
  method UpdateConfig(db: ContentStore, body: ConfigPatch, envDefault: Option<string>) returns (res: Code)
    requires db.Valid()
    modifies db`config
    ensures db.Valid()
    ensures var next := if old(db.config).None? then FirstWrite(body, envDefault) else Updated(old(db.config).value, body);
      && (res == Ok <==> Valid(next))
      && (res != Ok ==> res == ServerError && db.config == old(db.config))
      && (res == Ok ==> db.config == Some(next))
  {
    var next := if db.config.None? then FirstWrite(body, envDefault) else Updated(db.config.value, body);
    if !Valid(next) {
      return ServerError;
    }
    db.SetConfig(next);
    res := Ok;
  }
}
