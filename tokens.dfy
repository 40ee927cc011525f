/** The token service behind `generateToken` and `jwt.verify`: a token
    carries a subject id and an expiry 30 days after issue, and is signed
    with a keyed signature fixed at startup. A token is written as three
    dot-separated parts, subject, expiry and signature, in decimal. */
module Tokens {
  import opened Common
  import opened Text

  /** `expiresIn: '30d'`, in seconds. */
  const ThirtyDays: nat := 30 * 24 * 60 * 60

  /** The signature of a payload under the process-wide secret. */
  type Signer = string -> nat

  function Payload(id: nat, expiresAt: nat): string {
    Show(id) + "." + Show(expiresAt)
  }

  /** `generateToken(id)` at time `now`. */
  function Issue(sign: Signer, id: nat, now: nat): string {
    var payload := Payload(id, now + ThirtyDays);
    payload + "." + Show(sign(payload))
  }

  /** `jwt.verify`: the subject of a well-formed, correctly signed token
      that has not expired (expiry is reached when `now >= exp`). */
  function Verify(sign: Signer, token: string, now: nat): Option<nat> {
    var parts := Split(token, '.');
    if |parts| != 3 then None
    else
      var id, expiresAt, signature := ParseNat(parts[0]), ParseNat(parts[1]), ParseNat(parts[2]);
      if id.Some? && expiresAt.Some? && signature.Some?
         && signature.value == sign(parts[0] + "." + parts[1]) && now < expiresAt.value
      then Some(id.value)
      else None
  }

  lemma DigitsHaveNoMarks(s: string)
    requires AllDigits(s)
    ensures '.' !in s && ' ' !in s
  {
    forall i | 0 <= i < |s| ensures s[i] != '.' && s[i] != ' ' {
      assert IsDigit(s[i]);
    }
  }

  /** An issued token has no space, so a `Bearer` header carries it as one
      space-separated segment. */
  lemma IssuedHasNoSpace(sign: Signer, id: nat, now: nat)
    ensures ' ' !in Issue(sign, id, now)
  {
    var exp := now + ThirtyDays;
    var payload := Payload(id, exp);
    DigitsHaveNoMarks(Show(id));
    DigitsHaveNoMarks(Show(exp));
    DigitsHaveNoMarks(Show(sign(payload)));
    assert Issue(sign, id, now) == Show(id) + "." + Show(exp) + "." + Show(sign(payload));
  }

  /** Verifying an issued token yields the id it was issued for, until 30
      days after issue, and fails from then on. */
  lemma VerifyIssued(sign: Signer, id: nat, issuedAt: nat, now: nat)
    ensures Verify(sign, Issue(sign, id, issuedAt), now) ==
      if now < issuedAt + ThirtyDays then Some(id) else None
  {
    var exp := issuedAt + ThirtyDays;
    var payload := Payload(id, exp);
    var parts := [Show(id), Show(exp), Show(sign(payload))];
    DigitsHaveNoMarks(parts[0]);
    DigitsHaveNoMarks(parts[1]);
    DigitsHaveNoMarks(parts[2]);
    assert Join(parts, '.') == Issue(sign, id, issuedAt) by {
      assert parts[1..][1..] == [parts[2]];
      assert Join(parts[1..], '.') == parts[1] + "." + parts[2];
      assert Join(parts, '.') == parts[0] + "." + (parts[1] + "." + parts[2]);
      assert Issue(sign, id, issuedAt) == (parts[0] + "." + parts[1]) + "." + parts[2];
    }
    SplitJoin(parts, '.');
    ParseShow(id);
    ParseShow(exp);
    ParseShow(sign(payload));
  }
}
