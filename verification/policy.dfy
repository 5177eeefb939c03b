// Recipient policy (policy.rs, and the recipient checks of validation.rs).
//
// `to_lowercase` is modelled on ASCII letters only.
module Policies {
  import opened Prelude

  datatype ApiKeyConfig = ApiKeyConfig(id: KeyId, allowedRecipients: seq<string>, allowedRecipientDomains: seq<string>)

  function LowerChar(c: char): char {
    if 'A' <= c <= 'Z' then c - 'A' + 'a' else c
  }

  function ToLower(s: string): (r: string)
    ensures |r| == |s| && forall i :: 0 <= i < |s| ==> r[i] == LowerChar(s[i])
  {
    if s == "" then "" else [LowerChar(s[0])] + ToLower(s[1..])
  }

  predicate EqIgnoreAsciiCase(a: string, b: string) {
    |a| == |b| && forall i :: 0 <= i < |a| ==> LowerChar(a[i]) == LowerChar(b[i])
  }

  // `list.iter().any(|x| x.eq_ignore_ascii_case(s))`
  predicate Listed(list: seq<string>, s: string) {
    exists i :: 0 <= i < |list| && EqIgnoreAsciiCase(list[i], s)
  }

  // The position of the last '@'.
  function LastAt(address: string): (r: Option<nat>)
    ensures r.Some? ==>
      r.value < |address| && address[r.value] == '@' && (forall i :: r.value < i < |address| ==> address[i] != '@')
    ensures r.None? ==> '@' !in address
  {
    if address == "" then None
    else
      var n := |address| - 1;
      if address[n] == '@' then Some(n)
      else
        assert address == address[..n] + [address[n]];
        LastAt(address[..n])
  }

  // policy.rs, `extract_domain`: empty when there is no '@'.
  function DomainOf(address: string): string {
    match LastAt(address)
    case Some(i) => address[i + 1..]
    case None => ""
  }

  predicate DomainPermittedForKey(key: ApiKeyConfig, domain: string) {
    key.allowedRecipientDomains == [] || Listed(key.allowedRecipientDomains, domain)
  }

  predicate AddressPermittedForKey(key: ApiKeyConfig, address: string) {
    if key.allowedRecipients != [] then Listed(key.allowedRecipients, address)
    else DomainPermittedForKey(key, DomainOf(address))
  }

  function FindKey(keys: seq<ApiKeyConfig>, id: KeyId): Option<ApiKeyConfig> {
    if keys == [] then None else if keys[0].id == id then Some(keys[0]) else FindKey(keys[1..], id)
  }

  // validation.rs, `check_recipient_domain`.
  predicate CheckRecipientDomain(address: string, globalDomains: seq<string>, key: Option<ApiKeyConfig>) {
    if LastAt(address).None? then false
    else
      var domain := ToLower(DomainOf(address));
      if globalDomains != [] && !Listed(globalDomains, domain) then false
      else if key.Some? && key.value.allowedRecipientDomains != []
        && !Listed(key.value.allowedRecipientDomains, domain) then false
      else true
  }

  // validation.rs, `check_recipient_domain_or_address`.
  predicate CheckRecipient(address: string, globalDomains: seq<string>, key: Option<ApiKeyConfig>) {
    if key.Some? && !AddressPermittedForKey(key.value, address) then false
    else CheckRecipientDomain(address, globalDomains, key)
  }

  // The address is `local`, an '@', and a domain without one.
  predicate IsSplit(address: string, local: string, domain: string) {
    address == local + "@" + domain && '@' !in domain
  }

  // The policy as a rule: the address has a domain; each list that is not empty, of the server
  // and of the key, names it; the key's address list does not stand in for its domain list.
  ghost predicate Permitted(address: string, globalDomains: seq<string>, key: Option<ApiKeyConfig>) {
    exists local, domain ::
      && IsSplit(address, local, domain)
      && (globalDomains != [] ==> Listed(globalDomains, domain))
      && (key.Some? && key.value.allowedRecipients != [] ==> Listed(key.value.allowedRecipients, address))
      && (key.Some? && key.value.allowedRecipientDomains != [] ==> Listed(key.value.allowedRecipientDomains, domain))
  }

  lemma LastAtOfParts(address: string, local: string, domain: string)
    requires IsSplit(address, local, domain)
    ensures LastAt(address) == Some(|local|) && address[|local| + 1..] == domain
  {
    hide LastAt;
    assert address[|local|] == '@';
    assert forall i :: |local| < i < |address| ==> address[i] == domain[i - |local| - 1];
  }

  // The domain of an address is what follows its last '@'; without an '@' it is empty.
  lemma DomainOfParts(local: string, domain: string)
    requires '@' !in domain
    ensures DomainOf(local + "@" + domain) == domain
  {
    LastAtOfParts(local + "@" + domain, local, domain);
  }

  lemma NoDomain(address: string)
    requires '@' !in address
    ensures DomainOf(address) == ""
  {
  }

  lemma PartsNeedAt(address: string)
    ensures (exists local, domain :: IsSplit(address, local, domain)) ==> '@' in address
  {
    if local, domain :| IsSplit(address, local, domain) {
      assert address[|local|] == '@';
    }
  }

  // Every address with an '@' has such parts, and only one pair of them.
  lemma AddressHasParts(address: string) returns (local: string, domain: string)
    requires '@' in address
    ensures IsSplit(address, local, domain)
    ensures LastAt(address).Some? && DomainOf(address) == domain
    ensures forall l, d :: IsSplit(address, l, d) ==> l == local && d == domain
  {
    var at := LastAt(address).value;
    local, domain := address[..at], address[at + 1..];
    assert address == address[..at] + [address[at]] + address[at + 1..];
    forall l, d | IsSplit(address, l, d)
      ensures l == local && d == domain
    {
      LastAtOfParts(address, l, d);
    }
  }

  // Letters A to Z compare equal to the letters 32 above them; any other character only to itself.
  lemma SameLetter(c: char, d: char)
    ensures LowerChar(c) == LowerChar(d) <==>
      || c == d
      || ('A' <= c <= 'Z' && d as int == c as int + 32)
      || ('A' <= d <= 'Z' && c as int == d as int + 32)
    ensures LowerChar(c) == c <==> !('A' <= c <= 'Z')
  {
  }

  lemma LowerCharTwice(c: char)
    ensures LowerChar(LowerChar(c)) == LowerChar(c)
  {
  }

  // An entry lists a text when they are equal once both are lowered.
  lemma ListedMeansEqualWhenLowered(list: seq<string>, s: string)
    ensures Listed(list, s) <==> exists i :: 0 <= i < |list| && ToLower(list[i]) == ToLower(s)
  {
    forall i | 0 <= i < |list|
      ensures EqIgnoreAsciiCase(list[i], s) <==> ToLower(list[i]) == ToLower(s)
    {
      if ToLower(list[i]) == ToLower(s) {
        assert |list[i]| == |s|;
        assert forall j :: 0 <= j < |s| ==> ToLower(list[i])[j] == ToLower(s)[j];
      }
    }
  }

  // Lowering the domain first makes no difference to a case-insensitive comparison.
  lemma LoweringIsInvisible(list: seq<string>, s: string)
    ensures Listed(list, ToLower(s)) <==> Listed(list, s)
  {
    forall i | 0 <= i < |list|
      ensures EqIgnoreAsciiCase(list[i], ToLower(s)) <==> EqIgnoreAsciiCase(list[i], s)
    {
      forall j | 0 <= j < |s|
        ensures LowerChar(ToLower(s)[j]) == LowerChar(s[j])
      {
        LowerCharTwice(s[j]);
      }
    }
  }

  // The two chained checks of the code, for an address in its parts.
  lemma CheckOfParts(address: string, local: string, domain: string, globalDomains: seq<string>,
                     key: Option<ApiKeyConfig>)
    requires IsSplit(address, local, domain)
    ensures CheckRecipient(address, globalDomains, key) <==>
      && (globalDomains != [] ==> Listed(globalDomains, domain))
      && (key.Some? && key.value.allowedRecipients != [] ==> Listed(key.value.allowedRecipients, address))
      && (key.Some? && key.value.allowedRecipientDomains != [] ==> Listed(key.value.allowedRecipientDomains, domain))
  {
    hide LastAt, Listed;
    LastAtOfParts(address, local, domain);
    LoweringIsInvisible(globalDomains, domain);
    if key.Some? {
      LoweringIsInvisible(key.value.allowedRecipientDomains, domain);
    }
  }

  // The checks enforce exactly the rule.
  lemma CheckEnforcesPolicy(address: string, globalDomains: seq<string>, key: Option<ApiKeyConfig>)
    ensures CheckRecipient(address, globalDomains, key) <==> Permitted(address, globalDomains, key)
  {
    hide Listed;
    if '@' in address {
      var local, domain := AddressHasParts(address);
      hide IsSplit;
      CheckOfParts(address, local, domain, globalDomains, key);
    } else {
      assert LastAt(address).None?;
      PartsNeedAt(address);
    }
  }

  // An address on a key's allowlist is refused exactly when its domain is missing from a list that is not empty.
  lemma AllowlistDoesNotOverrideDomains(local: string, domain: string, globalDomains: seq<string>, key: ApiKeyConfig)
    requires '@' !in domain && Listed(key.allowedRecipients, local + "@" + domain)
    ensures !CheckRecipient(local + "@" + domain, globalDomains, Some(key)) <==>
      || (key.allowedRecipientDomains != [] && !Listed(key.allowedRecipientDomains, domain))
      || (globalDomains != [] && !Listed(globalDomains, domain))
  {
    CheckOfParts(local + "@" + domain, local, domain, globalDomains, Some(key));
  }

  // The entry found is the first one with that id; there is none only if no entry has it.
  lemma {:induction false} FindKeyFindsTheFirst(keys: seq<ApiKeyConfig>, id: KeyId)
    ensures FindKey(keys, id).None? <==> forall i :: 0 <= i < |keys| ==> keys[i].id != id
    ensures FindKey(keys, id).Some? ==>
      exists i :: 0 <= i < |keys| && keys[i] == FindKey(keys, id).value && keys[i].id == id
                  && forall j :: 0 <= j < i ==> keys[j].id != id
  {
    if keys != [] && keys[0].id != id {
      FindKeyFindsTheFirst(keys[1..], id);
      assert keys == [keys[0]] + keys[1..];
      if FindKey(keys, id).Some? {
        var i :| 0 <= i < |keys[1..]| && keys[1..][i] == FindKey(keys[1..], id).value && keys[1..][i].id == id
                 && forall j :: 0 <= j < i ==> keys[1..][j].id != id;
        assert keys[i + 1] == FindKey(keys, id).value;
        assert forall j :: 0 <= j < i + 1 ==> keys[j].id != id;
      }
    }
  }
}
