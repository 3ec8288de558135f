/** The error text the password pages show after a failed request
    (frontend/src/pages/ResetPassword.jsx and ForgotPassword.jsx): the
    server's `detail`, else its `message`, else a plain-text body, else the
    page's own default. `response` is axios's `err.response`, `undefined`
    when no response arrived. */
module ErrorText {
  import opened Js

  /** The chain of `err.response?.data?.detail`, `?.message` and
      `typeof err.response?.data === 'string'` tests. */
  function ErrorMessage(response: JsValue, default: string): (m: JsValue)
    ensures var data := Prop(response, "data");
            m == Prop(data, "detail") || m == Prop(data, "message") || m == data || m == Str(default)
    ensures Truthy(Prop(Prop(response, "data"), "detail")) ==> m == Prop(Prop(response, "data"), "detail")
  {
    var data := Prop(response, "data");
    if Truthy(Prop(data, "detail")) then Prop(data, "detail")
    else if Truthy(Prop(data, "message")) then Prop(data, "message")
    else if data.Str? then data
    else Str(default)
  }

  /** Only the body counts: the status and every other field of the
      response leave the text alone, and with no response at all the
      default is shown. */
  lemma OnlyBodyMatters(response: JsValue, other: JsValue, default: string)
    requires Prop(response, "data") == Prop(other, "data")
    ensures ErrorMessage(response, default) == ErrorMessage(other, default)
    ensures ErrorMessage(Undefined, default) == Str(default)
  {
  }

  /** A truthy `detail` wins: whatever `message` and the other fields of the
      body hold, the text is the `detail`. */
  lemma DetailWins(props: map<string, JsValue>, message: JsValue, default: string)
    requires "detail" in props && Truthy(props["detail"])
    ensures ErrorMessage(Obj(map["data" := Obj(props["message" := message])]), default) == props["detail"]
  {
    var data := Obj(props["message" := message]);
    assert Prop(Obj(map["data" := data]), "data") == data;
    assert Prop(data, "detail") == props["detail"];
  }

  /** Without a truthy `detail`, a truthy `message` wins over the default
      whatever else the body holds. */
  lemma MessageWithoutDetail(props: map<string, JsValue>, default: string)
    requires "message" in props && Truthy(props["message"])
    requires "detail" !in props || !Truthy(props["detail"])
    ensures ErrorMessage(Obj(map["data" := Obj(props)]), default) == props["message"]
  {
    var data := Obj(props);
    assert Prop(Obj(map["data" := data]), "data") == data;
  }

  /** The text shown is empty exactly when the body is the empty string:
      the default is never empty, and a truthy `detail` or `message` is not. */
  lemma EmptyErrorIff(response: JsValue, default: string)
    requires default != ""
    ensures !Truthy(ErrorMessage(response, default)) <==> Prop(response, "data") == Str("")
  {
  }

  /** A string body is never inspected for `detail`: a plain-text error body
      is shown as it is, while an object body without `detail` or `message`
      falls back to the default. */
  lemma BodyShapes(default: string)
    ensures ErrorMessage(Obj(map["data" := Str("Bad Gateway")]), default) == Str("Bad Gateway")
    ensures ErrorMessage(Obj(map["data" := Obj(map["error" := Str("x")])]), default) == Str(default)
    ensures ErrorMessage(Obj(map["data" := Obj(map["detail" := Str(""), "message" := Str("m")])]), default) == Str("m")
  {
    var d := Obj(map["detail" := Str(""), "message" := Str("m")]);
    assert Prop(d, "detail") == Str("");
    assert Prop(d, "message") == Str("m");
  }
}
