/** The contact handlers: a public form that stores a message and, in
    production, hands a notification e-mail to the mail transport; and the
    administrator's listing, read-flag update and deletion of messages. */
module ContactController {
  import opened Common
  import opened Text
  import opened Query
  import opened Store
  import ContactModel
  import SiteConfigModel

  type Contact = ContactModel.Contact

  /** The body of POST /api/contact. An absent field is the empty string,
      which the schema rejects alike. */
  datatype ContactForm = ContactForm(name: string, email: string, message: string)

  /** The notification handed to the mail transport. `to` is `None` when
      neither a site config nor the environment gives an address. */
  datatype Mail = Mail(to: Option<string>, subject: string, text: string, html: string)

  /** `message.replace(/\n/g, '<br>')`. */
  function BreakLines(s: string): (r: string)
    ensures '\n' !in r
    ensures '\n' !in s ==> r == s
  {
    if s == [] then []
    else (if s[0] == '\n' then "<br>" else [s[0]]) + BreakLines(s[1..])
  }

  /** The replacement works character by character: a newline becomes
      "<br>", any other character stays as it is. */
  lemma BreakLinesChar(c: char)
    ensures BreakLines([c]) == if c == '\n' then "<br>" else [c]
  {
  }

  /** Replacing in a concatenation is replacing in each part, so with
      `BreakLinesChar` every character is replaced in place and in order. */
  lemma {:induction false} BreakLinesAppend(a: string, b: string)
    ensures BreakLines(a + b) == BreakLines(a) + BreakLines(b)
  {
    if a == [] {
      assert a + b == b;
    } else {
      assert (a + b)[1..] == a[1..] + b;
      BreakLinesAppend(a[1..], b);
    }
  }

  /** A line break in the message: "a\nb" becomes "a<br>b". */
  lemma BreakLinesExample()
    ensures BreakLines("a\nb") == "a<br>b"
  {
    BreakLinesAppend("a\n", "b");
    BreakLinesAppend("a", "\n");
  }

  /** The notification for a form, with the raw (untrimmed) fields. */
  function Notification(to: Option<string>, form: ContactForm): Mail {
    Mail(to,
      "Nova mensagem de contacto de " + form.name,
      "Nome: " + form.name + "\nEmail: " + form.email + "\n\nMensagem:\n" + form.message,
      "<p><strong>Nome:</strong> " + form.name + "</p>\n"
      + "                <p><strong>Email:</strong> " + form.email + "</p>\n"
      + "                <p><strong>Mensagem:</strong></p>\n"
      + "                <p>" + BreakLines(form.message) + "</p>")
  }

  /** The recipient: the stored config's address if there is a config,
      else `DEFAULT_CONTACT_EMAIL` from the environment. */
  function Recipient(config: Option<SiteConfigModel.SiteConfig>, envDefault: Option<string>): (r: Option<string>)
    ensures config.Some? ==> r == Some(config.value.contactEmail)
    ensures config.None? ==> r == envDefault
  {
    if config.Some? then Some(config.value.contactEmail) else envDefault
  }

  /** POST /api/contact. The message is saved first: a form the schema
      rejects is `server_error` and stores nothing. A saved message is
      unread, with trimmed fields and a lower-cased address. In production
      the notification is handed to the transport; whether the transport
      then fails does not change the answer. */
  method SendContactMessage(db: ContentStore, form: ContactForm, production: bool, envDefault: Option<string>)
    returns (res: Code, id: nat, mail: Option<Mail>)
    requires db.Valid()
    modifies db
    ensures db.Valid()
    ensures old(db.Integrity()) ==> db.Integrity()
    ensures var c := ContactModel.Make(form.name, form.email, form.message);
      && (res == Created <==> ContactModel.Valid(c))
      && (res != Created ==> res == ServerError && unchanged(db) && mail == None)
      && (res == Created ==>
           && id == old(db.nextId) && db.nextId == id + 1 && id !in old(db.contacts)
           && db.contacts == old(db.contacts)[id := c] && !db.contacts[id].read
           && db.categories == old(db.categories) && db.videos == old(db.videos)
           && db.users == old(db.users) && db.config == old(db.config)
           && (production <==> mail.Some?)
           && (production ==> mail == Some(Notification(Recipient(old(db.config), envDefault), form))))
  {
    id, mail := 0, None;
    var c := ContactModel.Make(form.name, form.email, form.message);
    if !ContactModel.Valid(c) {
      return ServerError, id, mail;
    }
    id := db.InsertContact(c);
    if production {
      mail := Some(Notification(Recipient(db.config, envDefault), form));
    }
    res := Created;
  }

  /** The `read` filter as a selection on messages. */
  function ReadIs(filter: Option<bool>): Contact -> bool {
    (c: Contact) => filter.None? || c.read == filter.value
  }

  /** The three values of the `read` query parameter select the read
      messages, the unread ones, or all of them; read and unread messages
      together are all messages. */
  lemma ReadFilterPartition(contacts: map<nat, Contact>, read: Option<string>)
    ensures ReadFilter(read).None? ==> Selected(contacts, ReadIs(ReadFilter(read))) == contacts.Keys
    ensures Selected(contacts, ReadIs(Some(true))) + Selected(contacts, ReadIs(Some(false))) == contacts.Keys
    ensures Selected(contacts, ReadIs(Some(true))) * Selected(contacts, ReadIs(Some(false))) == {}
  {
    var all := Selected(contacts, ReadIs(ReadFilter(read)));
    if ReadFilter(read).None? {
      forall k | k in contacts ensures k in all {
        assert ReadIs(ReadFilter(read))(contacts[k]);
      }
    }
    var yes, no := Selected(contacts, ReadIs(Some(true))), Selected(contacts, ReadIs(Some(false)));
    forall k | k in contacts ensures k in yes + no {
      if contacts[k].read {
        assert ReadIs(Some(true))(contacts[k]);
      } else {
        assert ReadIs(Some(false))(contacts[k]);
      }
    }
  }

  /** GET /api/contact/messages: the messages the `read` filter selects,
      newest first, from position `skip` on, at most |limit| of them; a
      negative skip is refused by the database. */
  method GetContactMessages(db: ContentStore, page: Option<int>, limit: Option<int>, read: Option<string>)
    returns (res: Code, listing: Listing<Doc<Contact>>)
    requires db.Valid()
    ensures
      var p := ReadPaging(page, limit);
      var hits := Selected(db.contacts, ReadIs(ReadFilter(read)));
      && (res == Ok <==> p.skip >= 0)
      && (res != Ok ==> res == ServerError && listing.items == [])
      && listing.total == |hits|
      && listing.page == p.page && listing.limit == p.limit
      && listing.pages == Pages(listing.total, p.limit)
      && |listing.items| == (if p.skip < 0 then 0 else Min(Abs(p.limit), Max(0, |hits| - p.skip)))
      && forall i :: 0 <= i < |listing.items| ==>
           && listing.items[i].id in hits
           && listing.items[i].doc == db.contacts[listing.items[i].id]
           && |Newer(hits, listing.items[i].id)| == p.skip + i
  {
    var p := ReadPaging(page, limit);
    var keep := ReadIs(ReadFilter(read));
    var total := |Selected(db.contacts, keep)|;
    var found := Page(db.contacts, db.nextId, keep, p.skip, p.limit);
    var items := if found.Some? then found.value else [];
    listing := Listing(items, total, p.page, p.limit, Pages(total, p.limit));
    res := if found.Some? then Ok else ServerError;
  }

  /** PUT /api/contact/messages/:id: sets the read flag when the body has
      one and keeps it otherwise; name, address and text never change. */
  method UpdateMessageStatus(db: ContentStore, id: nat, read: Option<bool>) returns (res: Code)
    requires db.Valid()
    modifies db`contacts
    ensures db.Valid()
    ensures id in old(db.contacts) <==> res == Ok
    ensures res != Ok ==> res == NotFound && db.contacts == old(db.contacts)
    ensures res == Ok ==>
      var before := old(db.contacts)[id];
      && db.contacts == old(db.contacts)[id := before.(read := IfDefined(read, before.read))]
      && db.contacts[id].name == before.name && db.contacts[id].email == before.email
      && db.contacts[id].message == before.message
      && (read.Some? ==> db.contacts[id].read == read.value)
  {
    if id !in db.contacts {
      return NotFound;
    }
    var m := db.contacts[id];
    db.ReplaceContact(id, m.(read := IfDefined(read, m.read)));
    res := Ok;
  }

  /** DELETE /api/contact/messages/:id. */
  method DeleteMessage(db: ContentStore, id: nat) returns (res: Code)
    requires db.Valid()
    modifies db`contacts
    ensures db.Valid()
    ensures id in old(db.contacts) <==> res == Ok
    ensures res != Ok ==> res == NotFound && db.contacts == old(db.contacts)
    ensures res == Ok ==> db.contacts == old(db.contacts) - {id}
  {
    if id !in db.contacts {
      return NotFound;
    }
    db.RemoveContact(id);
    res := Ok;
  }
}
