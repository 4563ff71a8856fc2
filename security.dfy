/**
 * SensitiveDataMasker: redaction of passwords and e-mail addresses before
 * they are logged. Every function is pure; the only failure is the
 * unpacking error `email.split("@")` raises when the address holds more
 * than one `@`.
 */
module Security {
  import opened Wrappers
  import opened Text

  /** The ValueError of `local, domain = email.split("@")` with three or more parts. */
  datatype MaskError = TooManyValuesToUnpack

  /**
   * mask_password: the first and last `visibleChars` characters stay, the
   * rest become `*`; a password too short for that is starred completely.
   */
  function MaskPassword(password: string, visibleChars: int := 2): (r: string)
    ensures password == "" ==> r == ""
    ensures |password| <= 2 * visibleChars ==> |r| == |password| && forall k :: 0 <= k < |r| ==> r[k] == '*'
    ensures visibleChars >= 1 ==> |r| == |password|
    ensures visibleChars >= 1 && |password| > 2 * visibleChars ==>
      && r[..visibleChars] == password[..visibleChars]
      && r[|r| - visibleChars..] == password[|password| - visibleChars..]
      && forall k :: visibleChars <= k < |password| - visibleChars ==> r[k] == '*'
  {
    if password == "" then ""
    else if |password| <= visibleChars * 2 then Stars(|password|)
    else
      PySlice(password, 0, visibleChars)
      + Stars(|password| - visibleChars * 2)
      + PySlice(password, -visibleChars, |password|)
  }

  /**
   * With no visible characters the suffix slice `password[-0:]` is the whole
   * password, so the result is a row of stars followed by the password itself.
   */
  lemma MaskPasswordZeroVisible(password: string)
    requires password != ""
    ensures MaskPassword(password, 0) == Stars(|password|) + password
  {
    assert PySlice(password, 0, 0) == "";
    assert PySlice(password, 0, |password|) == password;
  }

  /** `m` is `email` with the local part before the `@` at `i` masked and the rest copied. */
  ghost predicate MaskedAt(email: string, i: nat, m: string)
    requires i < |email|
  {
    && |m| == |email|
    && m[i..] == email[i..]
    && (i <= 4 ==> forall k :: 0 <= k < i ==> m[k] == '*')
    && (i > 4 ==>
          && m[..2] == email[..2]
          && m[i - 2..i] == email[i - 2..i]
          && forall k :: 2 <= k < i - 2 ==> m[k] == '*')
  }

  /** The local part after masking: four characters or fewer are all stars. */
  function MaskLocal(local: string): (r: string)
    ensures |r| == |local|
    ensures |local| <= 4 ==> forall k :: 0 <= k < |r| ==> r[k] == '*'
    ensures |local| > 4 ==>
      && r[..2] == local[..2]
      && r[|r| - 2..] == local[|local| - 2..]
      && forall k :: 2 <= k < |local| - 2 ==> r[k] == '*'
  {
    if |local| <= 4 then Stars(|local|)
    else PySlice(local, 0, 2) + Stars(|local| - 4) + PySlice(local, -2, |local|)
  }

  /**
   * mask_email: "" for an address without `@`; an error when there is more
   * than one `@`; otherwise the masked local part, `@`, and the domain unchanged.
   */
  function MaskEmail(email: string): (r: Result<string, MaskError>)
    ensures (forall k :: 0 <= k < |email| ==> email[k] != '@') ==> r == Ok("")
    ensures r.Err? <==> exists j, k :: 0 <= j < k < |email| && email[j] == '@' && email[k] == '@'
    ensures forall i :: 0 <= i < |email| && email[i] == '@' && r.Ok? ==> MaskedAt(email, i, r.value)
  {
    IndexOfFirst(email, '@');
    var i := IndexOf(email, '@');
    if email == "" || i < 0 then Ok("")
    else
      IndexOfFirst(email[i + 1..], '@');
      var j := IndexOf(email[i + 1..], '@');
      if j >= 0 then
        assert email[i + 1 + j] == '@';
        Err(TooManyValuesToUnpack)
      else
        MaskedAtSplit(email, i);
        Ok(MaskLocal(email[..i]) + "@" + email[i + 1..])
  }

  /** Masking the local part before the `@` at `i` and copying the rest gives MaskedAt. */
  lemma MaskedAtSplit(email: string, i: nat)
    requires i < |email| && email[i] == '@'
    ensures MaskedAt(email, i, MaskLocal(email[..i]) + "@" + email[i + 1..])
  {
    var local, domain := email[..i], email[i + 1..];
    var m := MaskLocal(local) + "@" + domain;
    assert m[..i] == MaskLocal(local);
    assert m[i..] == email[i..];
  }

  /** mask_credentials: the masked e-mail and the password masked with two visible characters. */
  function MaskCredentials(email: string, password: string): (r: Result<(string, string), MaskError>)
    ensures r.Ok? <==> MaskEmail(email).Ok?
    ensures r.Ok? ==> r.value == (MaskEmail(email).value, MaskPassword(password, 2))
  {
    match MaskEmail(email)
    case Err(e) => Err(e)
    case Ok(maskedEmail) => Ok((maskedEmail, MaskPassword(password)))
  }

  /** With exactly one `@`, at `i`, the address is the masked local part, `@` and the domain. */
  lemma MaskEmailSingleAt(email: string, i: nat)
    requires i < |email| && email[i] == '@'
    requires forall k :: 0 <= k < |email| && k != i ==> email[k] != '@'
    ensures MaskEmail(email) == Ok(MaskLocal(email[..i]) + "@" + email[i + 1..])
  {
    IndexOfFirst(email, '@');
    assert IndexOf(email, '@') == i;
    var d := email[i + 1..];
    assert forall k :: 0 <= k < |d| ==> d[k] == email[i + 1 + k];
    assert IndexOf(d, '@') == -1;
  }

  lemma MaskEmailExample()
    ensures MaskEmail("ab@example.com") == Ok("**@example.com")
  {
    var e := "ab@example.com";
    assert e[2] == '@' && forall k :: 0 <= k < |e| && k != 2 ==> e[k] != '@' by {
      assert e[0] == 'a' && e[1] == 'b' && e[2] == '@';
    }
    assert MaskLocal(e[..2]) + "@" + e[3..] == "**@example.com" by {
      assert e[..2] == "ab" && e[3..] == "example.com";
      assert MaskLocal("ab") == "**";
    }
    MaskEmailSingleAt(e, 2);
  }

  lemma MaskEmailWithoutAt()
    ensures MaskEmail("not-an-email") == Ok("")
  {
    var e := "not-an-email";
    assert forall k :: 0 <= k < |e| ==> e[k] != '@';
  }

  lemma MaskPasswordExample()
    ensures MaskPassword("abcdefgh") == "ab****gh"
  {
    assert PySlice("abcdefgh", 0, 2) == "ab";
    assert PySlice("abcdefgh", -2, 8) == "gh";
    assert Stars(4) == "****";
  }
}
