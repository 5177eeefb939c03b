// The recipient domains kept with a submission (status.rs, `recipient_domains_from`).
module RecipientDomains {
  import opened Prelude
  import opened TextOrder
  import opened Policies
  import opened Validations

  // `Domain::from_address`.
  function FromAddress(address: string): Option<string> {
    if LastAt(address).Some? then Some(ToLower(DomainOf(address))) else None
  }

  ghost function DomainSet(addresses: seq<string>): set<string> {
    set i | 0 <= i < |addresses| && FromAddress(addresses[i]).Some? :: FromAddress(addresses[i]).value
  }

  ghost predicate StrictlySorted(ds: seq<string>) {
    forall i, j :: 0 <= i < j < |ds| ==> Before(ds[i], ds[j])
  }

  // Inserting into an ordered set.
  function Insert(d: string, ds: seq<string>): seq<string> {
    if ds == [] || Before(d, ds[0]) then [d] + ds
    else if d == ds[0] then ds
    else [ds[0]] + Insert(d, ds[1..])
  }

  lemma {:induction false} InsertKeepsSorted(d: string, ds: seq<string>)
    requires StrictlySorted(ds)
    ensures StrictlySorted(Insert(d, ds))
    ensures forall x :: x in Insert(d, ds) <==> x == d || x in ds
  {
    if ds == [] {
    } else if Before(d, ds[0]) {
      forall j | 0 <= j < |ds|
        ensures Before(d, ds[j])
      {
        if j > 0 {
          BeforeIsTransitive(d, ds[0], ds[j]);
        }
      }
    } else if d != ds[0] {
      BeforeIsTotal(d, ds[0]);
      var t := Insert(d, ds[1..]);
      InsertKeepsSorted(d, ds[1..]);
      assert ds == [ds[0]] + ds[1..];
      forall j | 0 <= j < |t|
        ensures Before(ds[0], t[j])
      {
        assert t[j] in t;
      }
    }
  }

  lemma DomainSetStep(addresses: seq<string>, i: nat)
    requires i < |addresses|
    ensures var d := FromAddress(addresses[i]);
            DomainSet(addresses[..i + 1]) == DomainSet(addresses[..i]) + (if d.Some? then {d.value} else {})
  {
    var longer, shorter := addresses[..i + 1], addresses[..i];
    assert forall k :: 0 <= k < i ==> longer[k] == shorter[k];
    assert longer[i] == addresses[i];
  }

  // The domain is what follows the last '@', lowered; without an '@' there is none.
  lemma FromAddressOfParts(address: string, local: string, domain: string)
    requires IsSplit(address, local, domain)
    ensures FromAddress(address) == Some(ToLower(domain))
  {
    LastAtOfParts(address, local, domain);
  }

  // One of the addresses has this domain, up to lowering.
  ghost predicate NamesDomain(addresses: seq<string>, d: string) {
    exists i, local, domain :: 0 <= i < |addresses| && IsSplit(addresses[i], local, domain) && d == ToLower(domain)
  }

  lemma AtWhenDomain(address: string)
    requires FromAddress(address).Some?
    ensures '@' in address
  {
  }

  lemma DomainSetIsNamed(addresses: seq<string>)
    ensures forall d :: d in DomainSet(addresses) <==> NamesDomain(addresses, d)
  {
    hide ToLower, LastAt, IsSplit;
    forall d
      ensures d in DomainSet(addresses) <==> NamesDomain(addresses, d)
    {
      if d in DomainSet(addresses) {
        var i :| 0 <= i < |addresses| && FromAddress(addresses[i]).Some? && FromAddress(addresses[i]).value == d;
        AtWhenDomain(addresses[i]);
        var local, domain := AddressHasParts(addresses[i]);
        assert IsSplit(addresses[i], local, domain) && d == ToLower(domain);
      }
      if NamesDomain(addresses, d) {
        var i, local, domain :|
          0 <= i < |addresses| && IsSplit(addresses[i], local, domain) && d == ToLower(domain);
        FromAddressOfParts(addresses[i], local, domain);
        assert FromAddress(addresses[i]) == Some(d);
      }
    }
  }

  // Exactly the lowered domains of the addresses, each once, in order.
  method RecipientDomainsFrom(to: seq<string>, cc: seq<string>) returns (ds: seq<string>)
    ensures StrictlySorted(ds)
    ensures forall x :: x in ds <==> x in DomainSet(to + cc)
    ensures forall x :: x in ds <==> NamesDomain(to + cc, x)
  {
    ds := [];
    var all := to + cc;
    for i := 0 to |all|
      invariant StrictlySorted(ds)
      invariant forall x :: x in ds <==> x in DomainSet(all[..i])
    {
      DomainSetStep(all, i);
      var d := FromAddress(all[i]);
      if d.Some? {
        InsertKeepsSorted(d.value, ds);
        ds := Insert(d.value, ds);
      }
    }
    assert all[..|all|] == all;
    DomainSetIsNamed(all);
  }

  lemma SameTail(a: seq<string>, b: seq<string>)
    requires StrictlySorted(a) && StrictlySorted(b) && (forall x :: x in a <==> x in b)
    requires a != [] && b != [] && a[0] == b[0]
    ensures forall x :: x in a[1..] <==> x in b[1..]
  {
    BeforeIsIrreflexive(a[0]);
    forall x
      ensures x in a <==> x == a[0] || x in a[1..]
      ensures x in b <==> x == a[0] || x in b[1..]
    {
      assert a == [a[0]] + a[1..] && b == [b[0]] + b[1..];
    }
    assert a[0] !in a[1..] && a[0] !in b[1..];
  }

  // A strictly sorted list is determined by what it contains.
  lemma {:induction false} SortedIsUnique(a: seq<string>, b: seq<string>)
    requires StrictlySorted(a) && StrictlySorted(b) && forall x :: x in a <==> x in b
    ensures a == b
  {
    if b != [] {
      assert b[0] in b && b[0] in a;
    }
    if a != [] {
      assert a[0] in a && a[0] in b;
      var i :| 0 <= i < |b| && b[i] == a[0];
      var j :| 0 <= j < |a| && a[j] == b[0];
      if i > 0 {
        BeforeIsIrreflexive(a[0]);
        if j > 0 {
          BeforeIsTransitive(a[0], b[0], a[0]);
        }
      }
      assert a[0] == b[0];
      SameTail(a, b);
      SortedIsUnique(a[1..], b[1..]);
    }
  }

  function Lowered(addresses: seq<string>): seq<string> {
    seq(|addresses|, i requires 0 <= i < |addresses| => ToLower(addresses[i]))
  }

  lemma SameAts(a: string, b: string)
    requires ToLower(a) == ToLower(b)
    ensures |a| == |b| && LastAt(a) == LastAt(b)
  {
    hide ToLower, LastAt;
    assert |a| == |b|;
    forall k | 0 <= k < |a|
      ensures a[k] == '@' <==> b[k] == '@'
    {
      assert ToLower(a)[k] == ToLower(b)[k];
    }
    if LastAt(a).Some? && LastAt(b).Some? {
      assert !(LastAt(a).value < LastAt(b).value) && !(LastAt(b).value < LastAt(a).value);
    }
  }

  lemma LowerSuffix(s: string, i: nat)
    requires i <= |s|
    ensures ToLower(s[i..]) == ToLower(s)[i..]
  {
    hide LowerChar;
  }

  lemma SameDomainWhenLowered(a: string, b: string)
    requires ToLower(a) == ToLower(b)
    ensures FromAddress(a) == FromAddress(b)
  {
    hide ToLower, LastAt;
    SameAts(a, b);
    if LastAt(a).Some? {
      LowerSuffix(a, LastAt(a).value + 1);
      LowerSuffix(b, LastAt(a).value + 1);
    }
  }

  lemma SubsetOfDomains(a: seq<string>, b: seq<string>)
    requires forall i :: 0 <= i < |a| ==> ToLower(a[i]) in Lowered(b)
    ensures DomainSet(a) <= DomainSet(b)
  {
    hide FromAddress, ToLower;
    forall d | d in DomainSet(a)
      ensures d in DomainSet(b)
    {
      var i :| 0 <= i < |a| && FromAddress(a[i]).Some? && FromAddress(a[i]).value == d;
      assert ToLower(a[i]) in Lowered(b);
      var j :| 0 <= j < |Lowered(b)| && Lowered(b)[j] == ToLower(a[i]);
      SameDomainWhenLowered(a[i], b[j]);
    }
  }

  // The stored domains do not depend on the order of the recipients, on repeats, on letter case, or on who is
  // in `to` and who in `cc`.
  lemma SameRecipientsSameDomains(a: seq<string>, b: seq<string>, da: seq<string>, db: seq<string>)
    requires forall i :: 0 <= i < |a| ==> ToLower(a[i]) in Lowered(b)
    requires forall i :: 0 <= i < |b| ==> ToLower(b[i]) in Lowered(a)
    requires StrictlySorted(da) && forall x :: x in da <==> x in DomainSet(a)
    requires StrictlySorted(db) && forall x :: x in db <==> x in DomainSet(b)
    ensures da == db
  {
    SubsetOfDomains(a, b);
    SubsetOfDomains(b, a);
    SortedIsUnique(da, db);
  }

  lemma PermittedDomain(ctx: Context, address: string)
    requires RecipientOk(ctx, address)
    ensures FromAddress(address).Some?
    ensures ctx.mail.allowedRecipientDomains != [] ==>
      Listed(ctx.mail.allowedRecipientDomains, FromAddress(address).value)
    ensures ctx.key.Some? && ctx.key.value.allowedRecipientDomains != [] ==>
      Listed(ctx.key.value.allowedRecipientDomains, FromAddress(address).value)
  {
    hide AddressOk, LastAt, Listed, IsSplit, FromAddress;
    var local, domain :|
      && IsSplit(address, local, domain)
      && (ctx.mail.allowedRecipientDomains != [] ==> Listed(ctx.mail.allowedRecipientDomains, domain))
      && (ctx.key.Some? && ctx.key.value.allowedRecipientDomains != [] ==>
            Listed(ctx.key.value.allowedRecipientDomains, domain));
    FromAddressOfParts(address, local, domain);
    LoweringIsInvisible(ctx.mail.allowedRecipientDomains, domain);
    if ctx.key.Some? {
      LoweringIsInvisible(ctx.key.value.allowedRecipientDomains, domain);
    }
  }

  lemma RecipientsTogether(ctx: Context, req: MailRequest, i: nat)
    requires Acceptable(ctx, req) && i < |req.to + ListOf(req.cc)|
    ensures RecipientOk(ctx, (req.to + ListOf(req.cc))[i])
  {
    hide RecipientOk, SubjectOk, BodyOk, AttachmentsOk, FeaturesOk;
    var all := req.to + ListOf(req.cc);
    if i < |req.to| {
      assert all[i] == req.to[i];
    } else {
      assert all[i] == ListOf(req.cc)[i - |req.to|];
    }
  }

  lemma SomeRecipient(ctx: Context, req: MailRequest)
    requires Acceptable(ctx, req)
    ensures |req.to + ListOf(req.cc)| > 0
  {
  }

  // Every domain kept with an accepted request is one the server and the key permit, and there is at least one.
  lemma KeptDomainsArePermitted(ctx: Context, req: MailRequest)
    requires Acceptable(ctx, req)
    ensures exists d :: d in DomainSet(req.to + ListOf(req.cc))
    ensures forall d :: d in DomainSet(req.to + ListOf(req.cc)) ==>
      && (ctx.mail.allowedRecipientDomains != [] ==> Listed(ctx.mail.allowedRecipientDomains, d))
      && (ctx.key.Some? && ctx.key.value.allowedRecipientDomains != [] ==>
            Listed(ctx.key.value.allowedRecipientDomains, d))
  {
    hide Acceptable, RecipientOk, FromAddress, Listed;
    var all := req.to + ListOf(req.cc);
    SomeRecipient(ctx, req);
    RecipientsTogether(ctx, req, 0);
    PermittedDomain(ctx, all[0]);
    assert FromAddress(all[0]).value in DomainSet(all);
    forall d | d in DomainSet(all)
      ensures ctx.mail.allowedRecipientDomains != [] ==> Listed(ctx.mail.allowedRecipientDomains, d)
      ensures ctx.key.Some? && ctx.key.value.allowedRecipientDomains != [] ==>
        Listed(ctx.key.value.allowedRecipientDomains, d)
    {
      var i :| 0 <= i < |all| && FromAddress(all[i]).Some? && FromAddress(all[i]).value == d;
      RecipientsTogether(ctx, req, i);
      PermittedDomain(ctx, all[i]);
    }
  }
}
