/** The forgot-password page (frontend/src/pages/ForgotPassword.jsx): submit
    starts a request for a reset OTP; success stores the email for the reset
    page and schedules a move there with the email in the query, failure
    shows the extracted error text. The link is where the page as written
    goes wrong: it puts the raw email in the query, and the reset page reads
    it back with form decoding (see README, Findings). */
module ForgotPassword {
  import opened Base
  import opened Js
  import opened Text
  import opened ErrorText
  import opened Query
  import ResetPassword

  const EmailKey := "resetPasswordEmail"
  const SendFailedText := "Failed to send password reset OTP. Please try again."
  const ResetPage := "/reset-password"
  /** The query parameter that carries the address. */
  const EmailParamName := "email"

  /** The page's state variables (ForgotPassword.jsx lines 6-9). */
  datatype Page = Page(email: string, message: JsValue, error: JsValue, loading: bool)

  const InitialPage := Page("", Str(""), Str(""), false)

  /** Submitting (ForgotPassword.jsx lines 12-21): loading starts, error and
      message are cleared, and `POST /forgot-password` carries the email. */
  function Submit(p: Page): (r: Page)
    ensures r.loading && r.error == Str("") && r.message == Str("") && r.email == p.email
  {
    p.(loading := true, error := Str(""), message := Str(""))
  }

  /** The submit button's `disabled` (ForgotPassword.jsx line 81). */
  predicate SubmitDisabled(p: Page)
  {
    p.loading || p.email == ""
  }

  /** The link to the reset page as the source builds it
      (ForgotPassword.jsx line 29): the raw email after `?email=`. */
  function ResetLinkAsWritten(email: string): (to: string)
    ensures |to| == |ResetPage| + 7 + |email| && to[|ResetPage| + 7..] == email
  {
    ResetPage + "?email=" + email
  }

  /** The link with the email passed through `encodeURIComponent`. Only ASCII
      reaches it: the field is `type="email"` and `required`, and the browser
      refuses to submit anything but a valid, all-ASCII address. */
  function ResetLink(email: string): (to: string)
    requires AllAscii(email)
    ensures |to| >= |ResetPage| + 7 && to[|ResetPage| + 7..] == EncodeUriComponent(email)
  {
    ResetPage + "?email=" + EncodeUriComponent(email)
  }

  /** What the reset page reads from a link: `searchParams.get("email")`. */
  function EmailParam(to: string): Option<string>
  {
    SearchParamsGet(SearchOf(to), EmailParamName)
  }

  /** The search part of a path without '?' or '#', followed by '?', a
      parameter name, '=' and a value, none with '#', is everything from the
      '?'. */
  lemma SearchAfterPath(path: string, name: string, value: string)
    requires '?' !in path && '#' !in path && '#' !in name && '#' !in value
    ensures SearchOf(path + ("?" + name + "=") + value) == "?" + name + "=" + value
  {
    var q := "?" + name + "=" + value;
    var to := path + ("?" + name + "=") + value;
    assert to == path + q;
    assert '#' !in to by {
      forall i | 0 <= i < |to| ensures to[i] != '#' {
        if i < |path| { assert to[i] == path[i]; }
        else if |path| < i <= |path| + |name| { assert to[i] == name[i - |path| - 1]; }
        else if i > |path| + |name| + 1 { assert to[i] == value[i - |path| - |name| - 2]; }
      }
    }
    assert forall j :: 0 <= j < |path| ==> to[j] == path[j];
    IndexOfIs(to, '?', |path|);
    assert to[|path|..] == q;
  }

  /** The page path holds neither '?' nor '#', the parameter name no '#'. */
  lemma ResetPagePlain()
    ensures '?' !in ResetPage && '#' !in ResetPage && '#' !in EmailParamName
  {
  }

  /** The parameter name needs no decoding and holds no separator. */
  lemma EmailParamNamePlain()
    ensures EmailParamName != "" && '=' !in EmailParamName && '&' !in EmailParamName
    ensures '+' !in EmailParamName && '%' !in EmailParamName
  {
  }

  /** The search part of a link carrying `value` after `?email=` is '?',
      the parameter name, '=' and the value, provided the value has no '#'
      (which would start the hash). */
  lemma LinkSearch(value: string)
    requires '#' !in value
    ensures SearchOf(ResetPage + "?email=" + value) == "?" + EmailParamName + "=" + value
  {
    LinkPrefix();
    ResetPagePlain();
    SearchAfterPath(ResetPage, EmailParamName, value);
  }

  /** So the reset page reads `email` from that query. */
  lemma LinkQuery(value: string)
    requires '#' !in value
    ensures EmailParam(ResetPage + "?email=" + value) == SearchParamsGet("?" + EmailParamName + "=" + value, EmailParamName)
  {
    LinkSearch(value);
  }

  /** The text between the page path and the address: '?', the parameter
      name and '='. */
  lemma LinkPrefix()
    ensures "?email=" == "?" + EmailParamName + "="
  {
  }

  /** Such a link yields the form-decoded value when the value also has no
      '&' (which would end the pair). */
  lemma LinkParam(value: string)
    requires '#' !in value && '&' !in value
    ensures EmailParam(ResetPage + "?email=" + value) == Some(FormDecode(value))
  {
    LinkQuery(value);
    EmailParamNamePlain();
    SinglePairGet(EmailParamName, value);
  }

  /** The encoding holds no '#', '&' or '+'. */
  lemma EncodedIsSafe(email: string)
    requires AllAscii(email)
    ensures var e := EncodeUriComponent(email); '#' !in e && '&' !in e && '+' !in e
  {
    var e := EncodeUriComponent(email);
    forall i | 0 <= i < |e| ensures e[i] != '#' && e[i] != '&' && e[i] != '+' {
      assert Unreserved(e[i]) || e[i] == '%';
    }
  }

  /** With the corrected link the reset page reads back exactly the email
      that was submitted, whatever ASCII characters it holds. */
  lemma ResetLinkRoundTrip(email: string)
    requires AllAscii(email)
    ensures EmailParam(ResetLink(email)) == Some(email)
  {
    var e := EncodeUriComponent(email);
    EncodedIsSafe(email);
    LinkParam(e);
    DecodeEncode(email);
  }

  /** The address "a+b@x.io" around its '+', with spaces in its place. */
  lemma PlainPieces()
    ensures "a" + "+" + "b@x.io" == "a+b@x.io" && "a" + " " + "b@x.io" == "a b@x.io"
    ensures '+' !in "a" && '+' !in "b@x.io" && '%' !in "a" && '%' !in "b@x.io"
  {
  }

  /** Form decoding of the mangled address: the '+' becomes a space. */
  lemma PlusDecodesToSpace()
    ensures FormDecode("a+b@x.io") == "a b@x.io"
  {
    PlainPieces();
    PlusBecomesSpace("a", "b@x.io");
  }

  /** The link as written turns a '+' (legal in an address) into a space. */
  lemma AsWrittenPlusBecomesSpace()
    ensures EmailParam(ResetLinkAsWritten("a+b@x.io")) == Some("a b@x.io")
  {
    LinkParam("a+b@x.io");
    PlusDecodesToSpace();
  }

  /** Whatever follows an '&' in the address is lost to the link as
      written: only the part before it is read back. */
  lemma AsWrittenCutAtAmpersand(head: string, tail: string)
    requires '#' !in head && '#' !in tail && '&' !in head
    ensures EmailParam(ResetLinkAsWritten(head + "&" + tail)) == Some(FormDecode(head))
  {
    assert '#' !in head + "&" + tail;
    LinkQuery(head + "&" + tail);
    EmailParamNamePlain();
    FirstPairWins(EmailParamName, head, tail);
  }

  /** The pieces of the address "a&b@x.io" around its '&'. */
  lemma AmpersandAddressParts()
    ensures "a" + "&" + "b@x.io" == "a&b@x.io"
    ensures '#' !in "a" && '#' !in "b@x.io" && '&' !in "a"
    ensures FormDecode("a") == "a"
  {
    PercentDecodePlain("a");
  }

  /** The link as written cuts an address at an '&' (also legal in one). */
  lemma AsWrittenAmpersandCuts()
    ensures EmailParam(ResetLinkAsWritten("a&b@x.io")) == Some("a")
  {
    AmpersandAddressParts();
    AsWrittenCutAtAmpersand("a", "b@x.io");
  }

  /** The email a reset page mounted from a link ends up using: the query
      parameter wins over the stored copy, so a mangled parameter is used
      even when storage holds the right address. */
  lemma AsWrittenResetPageUsesWrongEmail(store: Storage)
    ensures ResetPassword.ChooseEmail(EmailParam(ResetLinkAsWritten("a+b@x.io")), store)
            == ResetPassword.UseEmail("a b@x.io")
  {
    AsWrittenPlusBecomesSpace();
  }

  /** A settled request: the new state, storage, and the link the pending
      timer will navigate to. */
  datatype Settled = Settled(page: Page, store: Storage, navigateTo: Option<string>)

  /** Typing in the email field (ForgotPassword.jsx line 66). The field
      stays editable while a request is pending; only the button is locked. */
  function EditEmail(p: Page, typed: string): (r: Page)
    ensures r.email == typed
    ensures r.(email := p.email) == p
  {
    p.(email := typed)
  }

  /** The request settling (ForgotPassword.jsx lines 18-47). `handleSubmit`
      closes over the `email` of the render that submitted, so `sent` is the
      address captured at Submit and `p` is the page as it is when the
      answer arrives (the field may have been edited since). `link` is the
      reset-page address the success path schedules. Success shows the
      server's message, stores `sent` under `resetPasswordEmail` and
      schedules `link`; a failure, or a `null` body whose `.message` throws,
      shows the extracted error text. Loading ends either way, and the field
      keeps whatever it holds now. */
  function SettleWith(p: Page, store: Storage, o: ResetPassword.Outcome, sent: string, link: string): (r: Settled)
    ensures !r.page.loading && r.page.email == p.email
    ensures ResetPassword.Normalize(o).Answered? ==>
              && r.page == p.(message := Prop(ResetPassword.Normalize(o).data, "message"), loading := false)
              && r.store == store[EmailKey := sent]
              && r.navigateTo == Some(link)
    ensures ResetPassword.Normalize(o).Failed? ==>
              && r.page == p.(error := ErrorMessage(ResetPassword.Normalize(o).response, SendFailedText), loading := false)
              && r.store == store && r.navigateTo == None
  {
    match ResetPassword.Normalize(o)
    case Answered(data) => Settled(p.(message := Prop(data, "message"), loading := false), store[EmailKey := sent], Some(link))
    case Failed(response) => Settled(p.(error := ErrorMessage(response, SendFailedText), loading := false), store, None)
  }

  /** The page as written (line 29): a success schedules the link with the
      raw submitted email in the query. */
  function SettleAsWritten(p: Page, store: Storage, o: ResetPassword.Outcome, sent: string): (r: Settled)
    ensures r.navigateTo.Some? <==> ResetPassword.Normalize(o).Answered?
    ensures r.navigateTo.Some? ==> r.navigateTo.value == ResetPage + "?email=" + sent
    ensures r.navigateTo.Some? ==> r.store == store[EmailKey := sent]
    ensures r.navigateTo.None? ==> r.store == store
  {
    SettleWith(p, store, o, sent, ResetLinkAsWritten(sent))
  }

  /** The corrected page: a success schedules the link with the encoded
      submitted email. */
  function Settle(p: Page, store: Storage, o: ResetPassword.Outcome, sent: string): (r: Settled)
    requires AllAscii(sent)
    ensures r.navigateTo.Some? <==> ResetPassword.Normalize(o).Answered?
    ensures r.navigateTo.Some? ==> r.navigateTo.value == ResetPage + "?email=" + EncodeUriComponent(sent)
    ensures r.navigateTo.Some? ==> r.store == store[EmailKey := sent]
    ensures r.navigateTo.None? ==> r.store == store
  {
    SettleWith(p, store, o, sent, ResetLink(sent))
  }

  /** Submitting disables the button until the request settles; once it
      has, whatever the outcome, the button is enabled again exactly when
      the email field is non-empty. */
  lemma SubmitLocksUntilSettled(p: Page, store: Storage, o: ResetPassword.Outcome, link: string)
    ensures SubmitDisabled(Submit(p))
    ensures SubmitDisabled(SettleWith(Submit(p), store, o, p.email, link).page) <==> p.email == ""
  {
  }

  /** Editing the field while the request is pending changes neither what
      is stored nor where the page goes: both use the submitted address,
      while the field keeps the newly typed text. */
  lemma EditWhilePendingKeepsSent(p: Page, store: Storage, data: JsValue, typed: string)
    requires data != Null && data != Undefined
    ensures var s := SettleAsWritten(EditEmail(Submit(p), typed), store, ResetPassword.Answered(data), p.email);
            && s.page.email == typed
            && s.store[EmailKey] == p.email
            && s.navigateTo == Some(ResetLinkAsWritten(p.email))
  {
    assert ResetPassword.Normalize(ResetPassword.Answered(data)).Answered?;
  }

  /** End to end as written: after a successful request for "a+b@x.io" the
      reset page mounted from the scheduled link works on "a b@x.io", even
      though storage holds the right address. */
  lemma AsWrittenForgotThenResetLosesPlus(p: Page, store: Storage, data: JsValue, sent: string)
    requires sent == "a+b@x.io"
    requires data != Null && data != Undefined
    ensures var s := SettleAsWritten(p, store, ResetPassword.Answered(data), sent);
            && s.store[EmailKey] == sent
            && ResetPassword.Mount(EmailParam(s.navigateTo.value), s.store).email == "a b@x.io"
  {
    var s := SettleAsWritten(p, store, ResetPassword.Answered(data), sent);
    assert s.navigateTo == Some(ResetLinkAsWritten("a+b@x.io"));
    AsWrittenPlusBecomesSpace();
  }

  /** End to end: after a successful request for a non-empty address, the
      reset page mounted from the scheduled link uses exactly that address. */
  lemma ForgotThenResetKeepsEmail(p: Page, store: Storage, data: JsValue, sent: string)
    requires AllAscii(sent) && sent != ""
    requires data != Null && data != Undefined
    ensures var s := Settle(p, store, ResetPassword.Answered(data), sent);
            ResetPassword.Mount(EmailParam(s.navigateTo.value), s.store).email == sent
  {
    ResetLinkRoundTrip(sent);
  }
}
