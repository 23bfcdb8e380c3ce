/** The identity-provider admin gate of lib/auth0.ts: the allow-list parsed
    from `ALLOWED_ADMIN_EMAILS` and the `isAllowedUser` decision. The
    identity provider's session is reduced to the email it reports. */
module AdminAllowList {
  import opened Wrappers
  import opened Text

  const AllowListVar := "ALLOWED_ADMIN_EMAILS"

  /** One allow-list entry as stored: the trimmed entry with every ASCII
      capital lowered, so trimmed and lower-case; an entry already in that
      form is kept as it is. */
  function NormalizeEntry(e: string): (r: string)
    ensures |r| == |Trim(e)|
    ensures forall i :: 0 <= i < |r| ==> r[i] == LowerChar(Trim(e)[i])
    ensures Trimmed(r) && Lower(r) == r
    ensures Trimmed(e) && Lower(e) == e ==> r == e
  {
    var t := Trim(e);
    LowerKeepsTrimmed(t);
    LowerIdempotent(t);
    assert Trimmed(e) ==> Trim(e) == e by { if Trimmed(e) { TrimFixed(e); } }
    Lower(t)
  }

  /** The allow-list: empty when the variable is unset, otherwise one
      normalised entry per comma-separated field (so at least one, even for
      the empty string). */
  function ParseAllowList(raw: Option<string>): (list: seq<string>)
    ensures raw.None? ==> list == []
    ensures raw.Some? ==> |list| == |Split(raw.value, ',')| >= 1
    ensures raw.Some? ==> forall i :: 0 <= i < |list| ==> list[i] == NormalizeEntry(Split(raw.value, ',')[i])
  {
    if raw.None? then []
    else
      var fields := Split(raw.value, ',');
      seq(|fields|, i requires 0 <= i < |fields| => NormalizeEntry(fields[i]))
  }

  /** `isAllowedUser`: no email (or an empty one) is never allowed; an empty
      list allows every email; otherwise the lowered email, untrimmed, must
      be an entry. */
  function IsAllowedUser(list: seq<string>, email: Option<string>): (ok: bool)
    ensures ok ==> email.Some? && email.value != ""
    ensures email.Some? && email.value != "" ==> (ok <==> list == [] || Lower(email.value) in list)
  {
    if email.None? || email.value == "" then false
    else if |list| == 0 then true
    else Lower(email.value) in list
  }

  /** Every entry of a parsed list is in normal form. */
  lemma EntriesNormalized(raw: Option<string>)
    ensures forall e :: e in ParseAllowList(raw) ==> Trimmed(e) && Lower(e) == e
  {
  }

  /** Matching ignores ASCII case. */
  lemma CaseInsensitive(raw: Option<string>, a: string, b: string)
    requires Lower(a) == Lower(b)
    ensures IsAllowedUser(ParseAllowList(raw), Some(a)) == IsAllowedUser(ParseAllowList(raw), Some(b))
  {
    assert a == [] <==> b == [] by {
      assert |Lower(a)| == |a| && |Lower(b)| == |b|;
    }
  }

  /** With the variable unset every non-empty email is allowed. */
  lemma UnsetAllowsEveryone(email: string)
    requires email != ""
    ensures IsAllowedUser(ParseAllowList(None), Some(email))
  {
  }

  /** With the variable set to the empty string the list is `[""]`, which
      locks every non-empty email out. */
  lemma EmptyVariableLocksOut(email: string)
    requires email != ""
    ensures ParseAllowList(Some("")) == [""]
    ensures !IsAllowedUser(ParseAllowList(Some("")), Some(email))
  {
    assert Split("", ',') == [""];
    assert Trim("") == "";
    assert Lower("") == "";
    assert |Lower(email)| > 0;
  }

  /** The candidate email is not trimmed: one that starts with white space
      never matches a configured list, since every entry is trimmed. */
  lemma LeadingSpaceNeverMatches(raw: string, email: string)
    requires email != "" && IsSpace(email[0])
    ensures !IsAllowedUser(ParseAllowList(Some(raw)), Some(email))
  {
    var list := ParseAllowList(Some(raw));
    var l := Lower(email);
    assert IsSpace(l[0]) && !Trimmed(l);
    EntriesNormalized(Some(raw));
  }
}
