/** The SiteConfig schema: a required, trimmed contact address matching
    `^\S+@\S+\.\S+$`, and three optional trimmed social links. */
module SiteConfigModel {
  import opened Common
  import opened Text
  import opened Validators

  datatype SocialLinks = SocialLinks(instagram: string, youtube: string, vimeo: string)

  datatype SiteConfig = SiteConfig(contactEmail: string, socialLinks: SocialLinks)

  /** The address used when the environment gives none. */
  const FallbackContactEmail: string := "contato@tkprod.com.br"

  const NoLinks: SocialLinks := SocialLinks("", "", "")

  /** A config document as the setters leave it. */
  function Make(contactEmail: string, links: SocialLinks): SiteConfig {
    SiteConfig(Trim(contactEmail), SocialLinks(Trim(links.instagram), Trim(links.youtube), Trim(links.vimeo)))
  }

  /** The links are free strings: only the address is checked. */
  predicate Valid(c: SiteConfig) {
    c.contactEmail != "" && IsEmail(c.contactEmail)
  }

  predicate LinksTrimmed(l: SocialLinks) {
    Trimmed(l.instagram) && Trimmed(l.youtube) && Trimmed(l.vimeo)
  }

  /** A stored config: valid, and every string as its trim setter left it. */
  predicate Stored(c: SiteConfig) {
    Valid(c) && Trimmed(c.contactEmail) && LinksTrimmed(c.socialLinks)
  }

  /** Whatever passes validation after the setters ran is stored trimmed. */
  lemma MakeThenSave(contactEmail: string, links: SocialLinks)
    ensures Valid(Make(contactEmail, links)) ==> Stored(Make(contactEmail, links))
  {
  }

  /** The fallback address passes the schema's check. */
  lemma FallbackIsValid()
    ensures Valid(Make(FallbackContactEmail, NoLinks))
  {
    FallbackHasNoSpace();
    TrimNoSpace(FallbackContactEmail);
    FallbackMarks();
    assert Trim("") == "";
  }

  lemma FallbackHasNoSpace()
    ensures NoSpace(FallbackContactEmail)
  {
    var s := FallbackContactEmail;
    forall i | 0 <= i < |s| ensures !IsSpace(s[i]) {
      assert 'a' <= s[i] <= 'z' || s[i] == '@' || s[i] == '.';
    }
  }

  lemma FallbackMarks()
    ensures FindFrom(FallbackContactEmail, '@', 1) == Some(7)
    ensures FindLast(FallbackContactEmail, '.', |FallbackContactEmail| - 1) == Some(18)
  {
    var s := FallbackContactEmail;
    assert s[7] == '@' && s[18] == '.' && s[19] != '.';
    assert forall k :: 1 <= k < 7 ==> s[k] != '@';
  }
}
