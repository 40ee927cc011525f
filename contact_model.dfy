/** The Contact schema: required trimmed name and message, a required e-mail
    address that is trimmed, lower-cased and must match `^\S+@\S+\.\S+$`,
    and a `read` flag defaulting to false. */
module ContactModel {
  import opened Text
  import opened Validators

  datatype Contact = Contact(name: string, email: string, message: string, read: bool)

  /** A new message document: setters trim (and lower-case the address);
      `read` takes its default. */
  function Make(name: string, email: string, message: string): Contact {
    Contact(Trim(name), Lower(Trim(email)), Trim(message), false)
  }

  predicate Valid(c: Contact) {
    c.name != "" && c.email != "" && IsEmail(c.email) && c.message != ""
  }

  /** A new message is unread, and it validates exactly when the trimmed
      name and message are non-empty and the trimmed, lower-cased address
      has the e-mail shape; the stored address holds no capital that
      lower-casing folds. */
  lemma MakeThenSave(name: string, email: string, message: string)
    ensures var c := Make(name, email, message);
      && !c.read
      && (Valid(c) <==> Trim(name) != "" && Trim(message) != "" && EmailShape(Lower(Trim(email))))
      && forall i :: 0 <= i < |c.email| ==> !IsUpper(c.email[i])
  {
    EmailCheckMatchesPattern(Lower(Trim(email)));
    LowerShape(Trim(email));
  }
}
