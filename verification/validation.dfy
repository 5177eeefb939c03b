// The request validator (validation.rs, sanitize.rs).
//
// The address parser is a parameter. Text is a sequence of Unicode scalar values; byte lengths
// are those of its UTF-8 encoding. Error texts are reduced to their kind.
module Validations {
  import opened Prelude
  import opened Base64
  import opened Policies
  import opened Handlers

  datatype AttachmentSpec = AttachmentSpec(filename: string, contentType: string, data: string)

  datatype ValidatedAttachment = ValidatedAttachment(filename: string, contentType: string, decoded: seq<Byte>)

  // `clientRequestId` is what metadata.request_id holds, if it is a string.
  datatype MailRequest = MailRequest(
    to: seq<string>, subject: string, body: string, fromName: Option<string>, replyTo: Option<seq<string>>,
    bodyHtml: Option<string>, cc: Option<seq<string>>, attachments: Option<seq<AttachmentSpec>>,
    clientRequestId: Option<string>)

  datatype ValidatedMailRequest = ValidatedMailRequest(
    to: seq<string>, subject: string, body: string, fromName: Option<string>, replyTo: seq<string>,
    bodyHtml: Option<string>, cc: seq<string>, attachments: seq<ValidatedAttachment>, clientRequestId: Option<string>)

  datatype MailConfig = MailConfig(
    allowHtmlBody: bool, allowAttachments: bool, maxRecipients: nat, maxSubjectChars: nat, maxBodyBytes: nat,
    maxAttachments: nat, maxAttachmentBytes: nat, maxTotalAttachmentBytes: Option<nat>,
    allowedRecipientDomains: seq<string>)

  // What a validation runs against: the mail section, the caller's key entry, the address parser.
  datatype Context = Context(mail: MailConfig, key: Option<ApiKeyConfig>, isAddress: string -> bool)

  // --------------------------------------------------------------------------
  // Field rules
  // --------------------------------------------------------------------------

  function Utf8Width(c: char): nat {
    if c < 0x80 as char then 1 else if c < 0x800 as char then 2 else if c as int < 0x1_0000 then 3 else 4
  }

  function Utf8Length(s: string): nat {
    if s == "" then 0 else Utf8Width(s[0]) + Utf8Length(s[1..])
  }

  predicate HasLineBreak(s: string) {
    '\r' in s || '\n' in s
  }

  predicate IsControl(c: char) {
    c < 0x20 as char && c != '\t'
  }

  predicate HasControl(s: string) {
    exists i :: 0 <= i < |s| && IsControl(s[i])
  }

  // Unicode White_Space, as `trim` uses it.
  predicate IsWhitespace(c: char) {
    var n := c as int;
    9 <= n <= 13 || n == 0x20 || n == 0x85 || n == 0xA0 || n == 0x1680 || 0x2000 <= n <= 0x200A
    || n == 0x2028 || n == 0x2029 || n == 0x202F || n == 0x205F || n == 0x3000
  }

  predicate IsBlank(s: string) {
    forall i :: 0 <= i < |s| ==> IsWhitespace(s[i])
  }

  predicate SubjectOk(s: string, maxChars: nat) {
    !IsBlank(s) && !HasLineBreak(s) && !HasControl(s) && |s| <= maxChars
  }

  predicate BodyOk(s: string, maxBytes: nat) {
    '\0' !in s && Utf8Length(s) <= maxBytes
  }

  predicate AddressOk(ctx: Context, a: string) {
    !HasLineBreak(a) && ctx.isAddress(a)
  }

  predicate FilenameOk(s: string) {
    1 <= Utf8Length(s) <= 255 && '/' !in s && '\\' !in s && '\0' !in s && !HasLineBreak(s)
  }

  predicate ContentTypeOk(s: string) {
    s != "" && '/' in s && !HasLineBreak(s) && !HasControl(s)
  }

  // --------------------------------------------------------------------------
  // The declarative specification
  // --------------------------------------------------------------------------

  ghost predicate RecipientOk(ctx: Context, a: string) {
    AddressOk(ctx, a) && Permitted(a, ctx.mail.allowedRecipientDomains, ctx.key)
  }

  ghost predicate RecipientsOk(ctx: Context, addresses: seq<string>) {
    forall i :: 0 <= i < |addresses| ==> RecipientOk(ctx, addresses[i])
  }

  ghost predicate AddressesOk(ctx: Context, addresses: seq<string>) {
    forall i :: 0 <= i < |addresses| ==> AddressOk(ctx, addresses[i])
  }

  function ListOf<T>(o: Option<seq<T>>): seq<T> {
    if o.Some? then o.value else []
  }

  ghost predicate AttachmentOk(ctx: Context, a: AttachmentSpec) {
    && FilenameOk(a.filename) && ContentTypeOk(a.contentType)
    && Decode(a.data).Some? && |Decode(a.data).value| <= ctx.mail.maxAttachmentBytes
  }

  function DecodedSize(a: AttachmentSpec): nat {
    if Decode(a.data).Some? then |Decode(a.data).value| else 0
  }

  function TotalSize(specs: seq<AttachmentSpec>): nat {
    if specs == [] then 0 else TotalSize(specs[..|specs| - 1]) + DecodedSize(specs[|specs| - 1])
  }

  ghost predicate WithinTotal(ctx: Context, n: nat) {
    ctx.mail.maxTotalAttachmentBytes.Some? ==> n <= ctx.mail.maxTotalAttachmentBytes.value
  }

  ghost predicate AttachmentsOk(ctx: Context, specs: seq<AttachmentSpec>) {
    && |specs| <= ctx.mail.maxAttachments
    && (forall i :: 0 <= i < |specs| ==> AttachmentOk(ctx, specs[i]))
    && WithinTotal(ctx, TotalSize(specs))
  }

  predicate FeaturesOk(ctx: Context, req: MailRequest) {
    && (req.bodyHtml.Some? ==> ctx.mail.allowHtmlBody)
    && (ListOf(req.attachments) != [] ==> ctx.mail.allowAttachments)
  }

  // Which requests are acceptable, independent of any order of checking.
  ghost predicate Acceptable(ctx: Context, req: MailRequest) {
    && FeaturesOk(ctx, req)
    && req.to != [] && |req.to| <= ctx.mail.maxRecipients && |req.to| + |ListOf(req.cc)| <= ctx.mail.maxRecipients
    && RecipientsOk(ctx, req.to) && RecipientsOk(ctx, ListOf(req.cc))
    && SubjectOk(req.subject, ctx.mail.maxSubjectChars)
    && BodyOk(req.body, ctx.mail.maxBodyBytes)
    && (req.bodyHtml.Some? ==> BodyOk(req.bodyHtml.value, ctx.mail.maxBodyBytes))
    && (req.fromName.Some? ==> !HasLineBreak(req.fromName.value))
    && AddressesOk(ctx, ListOf(req.replyTo))
    && AttachmentsOk(ctx, ListOf(req.attachments))
  }

  // An attachment as it is passed on: name and type untouched, content decoded.
  function Decoded(a: AttachmentSpec): ValidatedAttachment {
    ValidatedAttachment(a.filename, a.contentType, if Decode(a.data).Some? then Decode(a.data).value else [])
  }

  function DecodedAll(specs: seq<AttachmentSpec>): seq<ValidatedAttachment> {
    seq(|specs|, i requires 0 <= i < |specs| => Decoded(specs[i]))
  }

  // What an accepted request becomes: nothing is rewritten.
  function Passed(req: MailRequest): ValidatedMailRequest {
    ValidatedMailRequest(req.to, req.subject, req.body, req.fromName, ListOf(req.replyTo), req.bodyHtml,
                         ListOf(req.cc), DecodedAll(ListOf(req.attachments)), req.clientRequestId)
  }

  // --------------------------------------------------------------------------
  // The specification in terms of code points and bytes
  // --------------------------------------------------------------------------

  // UTF-8, section 3 of RFC 3629.
  function Utf8Char(c: char): seq<Byte> {
    var n := c as int;
    if n <= 0x7F then [n]
    else if n <= 0x7FF then [0xC0 + n / 64, 0x80 + n % 64]
    else if n <= 0xFFFF then [0xE0 + n / 4096, 0x80 + n / 64 % 64, 0x80 + n % 64]
    else [0xF0 + n / 262144, 0x80 + n / 4096 % 64, 0x80 + n / 64 % 64, 0x80 + n % 64]
  }

  function Utf8(s: string): seq<Byte> {
    if s == "" then [] else Utf8Char(s[0]) + Utf8(s[1..])
  }

  lemma {:induction false} Utf8LengthIsByteCount(s: string)
    ensures Utf8Length(s) == |Utf8(s)|
  {
    if s != "" {
      Utf8LengthIsByteCount(s[1..]);
    }
  }

  // All decoded contents, one after the other.
  function AllContents(specs: seq<AttachmentSpec>): seq<Byte> {
    if specs == [] then []
    else (if Decode(specs[0].data).Some? then Decode(specs[0].data).value else []) + AllContents(specs[1..])
  }

  lemma {:induction false} ContentsOfLast(specs: seq<AttachmentSpec>)
    requires specs != []
    ensures |AllContents(specs)| == |AllContents(specs[..|specs| - 1])| + DecodedSize(specs[|specs| - 1])
  {
    hide Decode;
    var init := specs[..|specs| - 1];
    if |specs| == 1 {
      assert specs[1..] == [] && init == [];
    } else {
      ContentsOfLast(specs[1..]);
      assert specs[1..][..|specs| - 2] == init[1..] && init[0] == specs[0];
    }
  }

  lemma {:induction false} TotalSizeIsByteCount(specs: seq<AttachmentSpec>)
    ensures TotalSize(specs) == |AllContents(specs)|
  {
    if specs != [] {
      TotalSizeIsByteCount(specs[..|specs| - 1]);
      ContentsOfLast(specs);
    }
  }

  // No carriage return and no line feed.
  lemma LineBreaksSpelledOut(s: string)
    ensures !HasLineBreak(s) <==> forall i :: 0 <= i < |s| ==> s[i] as int != 13 && s[i] as int != 10
  {
    if HasLineBreak(s) {
      var i :| 0 <= i < |s| && (s[i] == '\r' || s[i] == '\n');
    }
  }

  lemma WhitespaceSpelledOut(c: char)
    ensures IsWhitespace(c) <==>
      || c as int in {9, 10, 11, 12, 13, 32, 0x85, 0xA0, 0x1680, 0x2028, 0x2029, 0x202F, 0x205F, 0x3000}
      || 0x2000 <= c as int <= 0x200A
  {
  }

  // A subject shows something, holds nothing below the space but tabs, and has at most so many characters.
  lemma SubjectSpelledOut(s: string, maxChars: nat)
    ensures SubjectOk(s, maxChars) <==>
      && (exists i :: 0 <= i < |s| && !IsWhitespace(s[i]))
      && (forall i :: 0 <= i < |s| ==> s[i] as int == 9 || 32 <= s[i] as int)
      && |s| <= maxChars
  {
    hide IsWhitespace;
    LineBreaksSpelledOut(s);
    assert HasControl(s) <==> exists i :: 0 <= i < |s| && !(s[i] as int == 9 || 32 <= s[i] as int) by {
      if HasControl(s) {
        var i :| 0 <= i < |s| && IsControl(s[i]);
      }
      if i :| 0 <= i < |s| && !(s[i] as int == 9 || 32 <= s[i] as int) {
        assert IsControl(s[i]);
      }
    }
  }

  lemma BodySpelledOut(s: string, maxBytes: nat)
    ensures BodyOk(s, maxBytes) <==> (forall i :: 0 <= i < |s| ==> s[i] as int != 0) && |Utf8(s)| <= maxBytes
  {
    Utf8LengthIsByteCount(s);
    if '\0' in s {
      var i :| 0 <= i < |s| && s[i] == '\0';
    }
  }

  // A file name has 1 to 255 bytes and no NUL, line break, slash or backslash.
  lemma FilenameSpelledOut(s: string)
    ensures FilenameOk(s) <==>
      && 1 <= |Utf8(s)| <= 255
      && forall i :: 0 <= i < |s| ==> s[i] as int !in {0, 10, 13, 47, 92}
  {
    hide Utf8, Utf8Length;
    Utf8LengthIsByteCount(s);
    LineBreaksSpelledOut(s);
    hide HasLineBreak;
    assert '/' as int == 47 && '\\' as int == 92;
  }

  lemma ContentTypeSpelledOut(s: string)
    ensures ContentTypeOk(s) <==>
      && (exists i :: 0 <= i < |s| && s[i] as int == 47)
      && forall i :: 0 <= i < |s| ==> s[i] as int == 9 || 32 <= s[i] as int
  {
    LineBreaksSpelledOut(s);
    assert HasControl(s) <==> exists i :: 0 <= i < |s| && !(s[i] as int == 9 || 32 <= s[i] as int) by {
      if HasControl(s) {
        var i :| 0 <= i < |s| && IsControl(s[i]);
      }
      if i :| 0 <= i < |s| && !(s[i] as int == 9 || 32 <= s[i] as int) {
        assert IsControl(s[i]);
      }
    }
    if i :| 0 <= i < |s| && s[i] as int == 47 {
      assert s[i] == '/';
    }
  }

  // The rule for one recipient or reply address.
  ghost predicate PlainAddress(ctx: Context, a: string) {
    ctx.isAddress(a) && forall i :: 0 <= i < |a| ==> a[i] as int != 13 && a[i] as int != 10
  }

  ghost predicate PlainAttachment(ctx: Context, a: AttachmentSpec) {
    && 1 <= |Utf8(a.filename)| <= 255
    && (forall i :: 0 <= i < |a.filename| ==> a.filename[i] as int !in {0, 10, 13, 47, 92})
    && (exists i :: 0 <= i < |a.contentType| && a.contentType[i] as int == 47)
    && (forall i :: 0 <= i < |a.contentType| ==> a.contentType[i] as int == 9 || 32 <= a.contentType[i] as int)
    && Decode(a.data).Some? && |Decode(a.data).value| <= ctx.mail.maxAttachmentBytes
  }

  lemma PlainAddressSpelledOut(ctx: Context, a: string)
    ensures AddressOk(ctx, a) <==> PlainAddress(ctx, a)
  {
    LineBreaksSpelledOut(a);
  }

  lemma RecipientsSpelledOut(ctx: Context, addresses: seq<string>)
    ensures RecipientsOk(ctx, addresses) <==>
      forall i :: 0 <= i < |addresses| ==>
        PlainAddress(ctx, addresses[i]) && Permitted(addresses[i], ctx.mail.allowedRecipientDomains, ctx.key)
  {
    hide Permitted, HasLineBreak, PlainAddress;
    forall i | 0 <= i < |addresses|
      ensures AddressOk(ctx, addresses[i]) <==> PlainAddress(ctx, addresses[i])
    {
      PlainAddressSpelledOut(ctx, addresses[i]);
    }
  }

  lemma ReplyAddressesSpelledOut(ctx: Context, addresses: seq<string>)
    ensures AddressesOk(ctx, addresses) <==> forall i :: 0 <= i < |addresses| ==> PlainAddress(ctx, addresses[i])
  {
    hide AddressOk, PlainAddress;
    forall i | 0 <= i < |addresses|
      ensures AddressOk(ctx, addresses[i]) <==> PlainAddress(ctx, addresses[i])
    {
      PlainAddressSpelledOut(ctx, addresses[i]);
    }
  }

  lemma AttachmentSpelledOut(ctx: Context, a: AttachmentSpec)
    ensures AttachmentOk(ctx, a) <==> PlainAttachment(ctx, a)
  {
    hide FilenameOk, ContentTypeOk, Utf8, Decode;
    FilenameSpelledOut(a.filename);
    ContentTypeSpelledOut(a.contentType);
  }

  lemma AttachmentsSpelledOut(ctx: Context, specs: seq<AttachmentSpec>)
    ensures AttachmentsOk(ctx, specs) <==>
      && |specs| <= ctx.mail.maxAttachments
      && (forall i :: 0 <= i < |specs| ==> PlainAttachment(ctx, specs[i]))
      && (ctx.mail.maxTotalAttachmentBytes.Some? ==> |AllContents(specs)| <= ctx.mail.maxTotalAttachmentBytes.value)
  {
    hide PlainAttachment, AttachmentOk, TotalSize;
    TotalSizeIsByteCount(specs);
    forall i | 0 <= i < |specs|
      ensures AttachmentOk(ctx, specs[i]) <==> PlainAttachment(ctx, specs[i])
    {
      AttachmentSpelledOut(ctx, specs[i]);
    }
  }

  // What it takes for a request to be acceptable, by code points and bytes: features, number and form of the
  // addresses, no line break in anything that becomes a header, and every size within its limit.
  lemma AcceptableSpelledOut(ctx: Context, req: MailRequest)
    ensures Acceptable(ctx, req) <==>
      && (req.bodyHtml.Some? ==> ctx.mail.allowHtmlBody)
      && (req.attachments.Some? && |req.attachments.value| > 0 ==> ctx.mail.allowAttachments)
      && 1 <= |req.to| && |req.to| + (if req.cc.Some? then |req.cc.value| else 0) <= ctx.mail.maxRecipients
      && (forall i :: 0 <= i < |req.to| ==>
            PlainAddress(ctx, req.to[i]) && Permitted(req.to[i], ctx.mail.allowedRecipientDomains, ctx.key))
      && (req.cc.Some? ==> forall i :: 0 <= i < |req.cc.value| ==>
            PlainAddress(ctx, req.cc.value[i]) && Permitted(req.cc.value[i], ctx.mail.allowedRecipientDomains, ctx.key))
      && (exists i :: 0 <= i < |req.subject| && !IsWhitespace(req.subject[i]))
      && (forall i :: 0 <= i < |req.subject| ==> req.subject[i] as int == 9 || 32 <= req.subject[i] as int)
      && |req.subject| <= ctx.mail.maxSubjectChars
      && (forall i :: 0 <= i < |req.body| ==> req.body[i] as int != 0) && |Utf8(req.body)| <= ctx.mail.maxBodyBytes
      && (req.bodyHtml.Some? ==>
            && (forall i :: 0 <= i < |req.bodyHtml.value| ==> req.bodyHtml.value[i] as int != 0)
            && |Utf8(req.bodyHtml.value)| <= ctx.mail.maxBodyBytes)
      && (req.fromName.Some? ==> forall i :: 0 <= i < |req.fromName.value| ==>
            req.fromName.value[i] as int != 13 && req.fromName.value[i] as int != 10)
      && (req.replyTo.Some? ==> forall i :: 0 <= i < |req.replyTo.value| ==> PlainAddress(ctx, req.replyTo.value[i]))
      && (req.attachments.Some? ==>
            && |req.attachments.value| <= ctx.mail.maxAttachments
            && (forall i :: 0 <= i < |req.attachments.value| ==> PlainAttachment(ctx, req.attachments.value[i]))
            && (ctx.mail.maxTotalAttachmentBytes.Some? ==>
                  |AllContents(req.attachments.value)| <= ctx.mail.maxTotalAttachmentBytes.value))
  {
    hide RecipientsOk, AddressesOk, AttachmentsOk, SubjectOk, BodyOk, HasLineBreak, PlainAddress, PlainAttachment;
    hide Permitted, IsWhitespace, Utf8;
    RecipientsSpelledOut(ctx, req.to);
    RecipientsSpelledOut(ctx, ListOf(req.cc));
    SubjectSpelledOut(req.subject, ctx.mail.maxSubjectChars);
    BodySpelledOut(req.body, ctx.mail.maxBodyBytes);
    if req.bodyHtml.Some? {
      BodySpelledOut(req.bodyHtml.value, ctx.mail.maxBodyBytes);
    }
    if req.fromName.Some? {
      LineBreaksSpelledOut(req.fromName.value);
    }
    ReplyAddressesSpelledOut(ctx, ListOf(req.replyTo));
    AttachmentsSpelledOut(ctx, ListOf(req.attachments));
    assert AllContents([]) == [];
  }

  // --------------------------------------------------------------------------
  // The validator
  // --------------------------------------------------------------------------

  method ValidateRecipients(ctx: Context, addresses: seq<string>) returns (ok: bool)
    ensures ok <==> RecipientsOk(ctx, addresses)
  {
    for i := 0 to |addresses|
      invariant forall j :: 0 <= j < i ==> RecipientOk(ctx, addresses[j])
    {
      var a := addresses[i];
      CheckEnforcesPolicy(a, ctx.mail.allowedRecipientDomains, ctx.key);
      if HasLineBreak(a) || !ctx.isAddress(a) || !CheckRecipient(a, ctx.mail.allowedRecipientDomains, ctx.key) {
        assert !RecipientOk(ctx, addresses[i]);
        return false;
      }
    }
    ok := true;
  }

  method ValidateReplyTo(ctx: Context, addresses: seq<string>) returns (ok: bool)
    ensures ok <==> AddressesOk(ctx, addresses)
  {
    for i := 0 to |addresses|
      invariant forall j :: 0 <= j < i ==> AddressOk(ctx, addresses[j])
    {
      if HasLineBreak(addresses[i]) || !ctx.isAddress(addresses[i]) {
        assert !AddressOk(ctx, addresses[i]);
        return false;
      }
    }
    ok := true;
  }

  function MaxEncoded(maxAttachmentBytes: nat): nat {
    maxAttachmentBytes * 4 / 3 + 8
  }

  lemma {:induction false} AsciiLength(s: string)
    requires forall i :: 0 <= i < |s| ==> s[i] < 128 as char
    ensures Utf8Length(s) == |s|
  {
    if s != "" {
      AsciiLength(s[1..]);
    }
  }

  // The cheap length test before decoding turns away nothing that decoding would have accepted.
  lemma PreCheckIsHarmless(data: string, maxAttachmentBytes: nat)
    requires Decode(data).Some? && |Decode(data).value| <= maxAttachmentBytes
    ensures Utf8Length(data) <= MaxEncoded(maxAttachmentBytes)
  {
    var d := Decode(data).value;
    DecodeIsCanonical(data, d);
    EncodedLength(d);
    EncodingIsAscii(d);
    AsciiLength(data);
  }

  // The running total never shrinks, so exceeding the limit early means exceeding it at the end.
  lemma {:induction false} TotalGrows(specs: seq<AttachmentSpec>, i: nat)
    requires i <= |specs|
    ensures TotalSize(specs[..i]) <= TotalSize(specs)
    decreases |specs| - i
  {
    if i == |specs| {
      assert specs[..i] == specs;
    } else {
      assert specs[..i + 1][..i] == specs[..i];
      TotalGrows(specs, i + 1);
    }
  }

  lemma EmptyHasNoWidth(s: string)
    ensures Utf8Length(s) >= 1 <==> s != ""
  {
  }

  // The checks of one attachment, in the order the loop makes them.
  method ValidateAttachment(ctx: Context, spec: AttachmentSpec) returns (r: Option<ValidatedAttachment>)
    ensures r.Some? <==> AttachmentOk(ctx, spec)
    ensures r.Some? ==> r.value == Decoded(spec) && |r.value.decoded| == DecodedSize(spec)
  {
    hide Decode, Utf8Length;
    if spec.filename == "" || Utf8Length(spec.filename) > 255 {
      EmptyHasNoWidth(spec.filename);
      return None;
    }
    if '/' in spec.filename || '\\' in spec.filename || '\0' in spec.filename || HasLineBreak(spec.filename) {
      return None;
    }
    EmptyHasNoWidth(spec.filename);
    if spec.contentType == "" || '/' !in spec.contentType || HasLineBreak(spec.contentType)
      || HasControl(spec.contentType) {
      return None;
    }
    if Utf8Length(spec.data) > MaxEncoded(ctx.mail.maxAttachmentBytes) {
      if AttachmentOk(ctx, spec) {
        PreCheckIsHarmless(spec.data, ctx.mail.maxAttachmentBytes);
      }
      return None;
    }
    var decoded := Decode(spec.data);
    if decoded.None? || |decoded.value| > ctx.mail.maxAttachmentBytes {
      return None;
    }
    r := Some(ValidatedAttachment(spec.filename, spec.contentType, decoded.value));
  }

  method ValidateAttachments(ctx: Context, specs: seq<AttachmentSpec>) returns (r: Option<seq<ValidatedAttachment>>)
    ensures r.Some? <==> AttachmentsOk(ctx, specs)
    ensures r.Some? ==> r.value == DecodedAll(specs)
  {
    hide AttachmentOk, Decoded, DecodedSize;
    if |specs| > ctx.mail.maxAttachments {
      return None;
    }
    var validated: seq<ValidatedAttachment> := [];
    var totalDecodedBytes := 0;
    for i := 0 to |specs|
      invariant forall j :: 0 <= j < i ==> AttachmentOk(ctx, specs[j])
      invariant validated == DecodedAll(specs[..i])
      invariant totalDecodedBytes == TotalSize(specs[..i]) && WithinTotal(ctx, totalDecodedBytes)
    {
      assert specs[..i + 1][..i] == specs[..i];
      var checked := ValidateAttachment(ctx, specs[i]);
      if checked.None? {
        return None;
      }
      totalDecodedBytes := totalDecodedBytes + |checked.value.decoded|;
      if ctx.mail.maxTotalAttachmentBytes.Some? && totalDecodedBytes > ctx.mail.maxTotalAttachmentBytes.value {
        TotalGrows(specs, i + 1);
        return None;
      }
      validated := validated + [checked.value];
    }
    assert specs[..|specs|] == specs;
    r := Some(validated);
  }

  // Sound and complete: exactly the acceptable requests pass, and they pass unchanged. A request that
  // uses a disabled feature is told so before anything else is looked at.
  method ValidateMailRequest(ctx: Context, req: MailRequest) returns (r: Result<ValidatedMailRequest, AppError>)
    ensures r.Ok? <==> Acceptable(ctx, req)
    ensures r.Ok? ==> r.value == Passed(req)
    ensures r.Ok? ==>
      && r.value.to == req.to && r.value.subject == req.subject && r.value.body == req.body
      && r.value.bodyHtml == req.bodyHtml && r.value.fromName == req.fromName
      && r.value.cc == (if req.cc.Some? then req.cc.value else [])
      && r.value.replyTo == (if req.replyTo.Some? then req.replyTo.value else [])
      && r.value.clientRequestId == req.clientRequestId
      && |r.value.attachments| == (if req.attachments.Some? then |req.attachments.value| else 0)
      && forall i :: 0 <= i < |r.value.attachments| ==>
           && r.value.attachments[i].filename == req.attachments.value[i].filename
           && r.value.attachments[i].contentType == req.attachments.value[i].contentType
           && Some(r.value.attachments[i].decoded) == Decode(req.attachments.value[i].data)
    ensures r.Err? ==> r.error == if FeaturesOk(ctx, req) then ValidationError else FeatureDisabledError
  {
    if req.bodyHtml.Some? && !ctx.mail.allowHtmlBody {
      return Err(FeatureDisabledError);
    }
    if req.attachments.Some? && req.attachments.value != [] && !ctx.mail.allowAttachments {
      return Err(FeatureDisabledError);
    }

    if req.to == [] || |req.to| > ctx.mail.maxRecipients {
      return Err(ValidationError);
    }
    var toOk := ValidateRecipients(ctx, req.to);
    if !toOk {
      return Err(ValidationError);
    }

    var cc: seq<string> := [];
    if req.cc.Some? {
      cc := req.cc.value;
      if |req.to| + |cc| > ctx.mail.maxRecipients {
        return Err(ValidationError);
      }
      var ccOk := ValidateRecipients(ctx, cc);
      if !ccOk {
        return Err(ValidationError);
      }
    }

    if !SubjectOk(req.subject, ctx.mail.maxSubjectChars) || !BodyOk(req.body, ctx.mail.maxBodyBytes) {
      return Err(ValidationError);
    }
    if req.bodyHtml.Some? && !BodyOk(req.bodyHtml.value, ctx.mail.maxBodyBytes) {
      return Err(ValidationError);
    }
    if req.fromName.Some? && HasLineBreak(req.fromName.value) {
      return Err(ValidationError);
    }

    var replyTo: seq<string> := [];
    if req.replyTo.Some? {
      replyTo := req.replyTo.value;
      var replyOk := ValidateReplyTo(ctx, replyTo);
      if !replyOk {
        return Err(ValidationError);
      }
    }

    var specs := if req.attachments.Some? then req.attachments.value else [];
    var attachments := ValidateAttachments(ctx, specs);
    if attachments.None? {
      return Err(ValidationError);
    }
    r := Ok(ValidatedMailRequest(req.to, req.subject, req.body, req.fromName, replyTo, req.bodyHtml, cc,
                                 attachments.value, req.clientRequestId));
  }
}
