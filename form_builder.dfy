/**
 * The form controller of `src/index.ts`: one `FormBuilder` per container.
 * It builds the form from inline or fetched field definitions, keeps a
 * registry of event handlers, validates fields and the whole form, and
 * gates submission on the result.
 *
 * The browser is replaced by parameters: the page's `querySelector`, the
 * parsers and `RegExp` (a `Host`), the ids `getUniqueId` would draw, and
 * the outcome of each fetch. What the controller does to the outside world
 * (invoking a handler, fetching, posting, resetting the form) is recorded,
 * in order, in the field `trace`.
 */
module FormController {
  import opened Wrappers
  import opened JsString
  import opened Dom
  import opened Validation
  import opened Factory
  import opened Display

  /** A callback passed to `on`, known only by its identity. */
  type Handler = nat

  /** An element of the page, known only by its identity. */
  type ElementRef = nat

  /** The `element` argument of the constructor: a selector, or an element (possibly missing). */
  datatype Target = BySelector(selector: string) | ByElement(element: Option<ElementRef>)

  /**
   * The page around the form: `document.querySelector`, and `document.currentScript`
   * with the container `create` would insert after it. `query` fails with the message
   * of the `SyntaxError` that an invalid selector (the empty one included) throws.
   */
  datatype Document = Document(
    query: string -> Result<Option<ElementRef>, string>,
    hasCurrentScript: bool,
    insertedContainer: ElementRef)

  /** `FormBuilderOptions`. */
  datatype Options = Options(
    selector: Option<Target>,
    formId: string,
    portalId: string,
    data: Option<seq<FieldDef>>,
    submitUrl: Option<string>)

  /** The `api_url` and `save_url` of the build environment. */
  datatype Environment = Environment(apiUrl: string, saveUrl: string)

  /** What a handler is called with; the form reference and response bodies are not modelled. */
  datatype Payload = InitSucceeded | InitFailed | BeforeSubmit | AfterSubmit(success: bool)

  /** What the controller does to the outside world, in the order it does it. */
  datatype Effect =
    | Invoked(handler: Handler, event: string, payload: Payload)
    | Fetched(url: string)
    | Posted(url: string)
    | FormReset

  /**
   * An `input`, `textarea` or `select` of the container, as `validateField` sees it:
   * its `name` attribute, its current value, and the position among the form's
   * children of the node it lies in, if any (where `closest('.form-field')` looks).
   */
  datatype Control = Control(name: Option<string>, value: string, field: Option<nat>)

  // ---------------------------------------------------------------------------
  // Finding the container

  /** `typeof element === 'string' ? document.querySelector(element) : element`. */
  function ResolveContainer(document: Document, element: Target): Result<Option<ElementRef>, string> {
    match element
    case BySelector(s) => document.query(s)
    case ByElement(e) => Success(e)
  }

  /** `options.selector` is truthy: a non-empty selector or an element. */
  predicate Truthy(t: Target) {
    match t
    case BySelector(s) => s != ""
    case ByElement(e) => e.Some?
  }

  /**
   * The element `create` hands to the constructor: the selector's element when a
   * selector is given, else a new `form-container` div inserted after the current
   * script, when there is one.
   */
  function CreateContainer(document: Document, selector: Option<Target>): (r: Result<Option<ElementRef>, string>)
    ensures selector.Some? && Truthy(selector.value) ==> r == ResolveContainer(document, selector.value)
    ensures !(selector.Some? && Truthy(selector.value)) ==>
      && r.Success?
      && (r.value.Some? <==> document.hasCurrentScript)
      && (r.value.Some? ==> r.value.value == document.insertedContainer)
  {
    if selector.Some? && Truthy(selector.value) then ResolveContainer(document, selector.value)
    else if document.hasCurrentScript then Success(Some(document.insertedContainer))
    else Success(None)
  }

  const ContainerNotFound := "Container not found."

  // ---------------------------------------------------------------------------
  // URLs

  /** The query string `buildForm` appends to the fetch URL. */
  function QueryString(formId: string, portalId: string): string {
    "?formId=" + formId + "&portalId=" + portalId
  }

  /** The URL `buildForm` fetches the field definitions from. */
  function FetchUrl(env: Environment, options: Options): string {
    env.apiUrl + options.formId + ".json" + QueryString(options.formId, options.portalId)
  }

  /** The URL `submitForm` posts to: `submitUrl` when it is truthy, else `save_url`. */
  function SubmitUrl(env: Environment, options: Options): (r: string)
    ensures r == env.saveUrl || (options.submitUrl.Some? && r == options.submitUrl.value)
    ensures options.submitUrl.Some? && options.submitUrl.value != "" ==> r == options.submitUrl.value
    ensures options.submitUrl.None? ==> r == env.saveUrl
  {
    if options.submitUrl.Some? && options.submitUrl.value != "" then options.submitUrl.value else env.saveUrl
  }

  /** The position of the first `c` in `s`, or `|s|`. */
  function IndexOf(s: string, c: char): (r: nat)
    ensures r <= |s|
  {
    if s == [] then 0 else if s[0] == c then 0 else 1 + IndexOf(s[1..], c)
  }

  lemma {:induction false} IndexOfSeparator(x: string, y: string, sep: char)
    requires sep !in x
    ensures IndexOf(x + [sep] + y, sep) == |x|
  {
    if x != [] {
      assert (x + [sep] + y)[1..] == x[1..] + [sep] + y;
      IndexOfSeparator(x[1..], y, sep);
    }
  }

  lemma SplitAtSeparator(x1: string, y1: string, x2: string, y2: string, sep: char)
    requires sep !in x1 && sep !in x2
    requires x1 + [sep] + y1 == x2 + [sep] + y2
    ensures x1 == x2 && y1 == y2
  {
    var s := x1 + [sep] + y1;
    IndexOfSeparator(x1, y1, sep);
    IndexOfSeparator(x2, y2, sep);
    assert x1 == s[..|x1|] == x2;
    assert y1 == s[|x1| + 1..] == y2;
  }

  /** The query string determines both ids, as long as the form id holds no `&`. */
  lemma QueryStringInjective(formId1: string, portalId1: string, formId2: string, portalId2: string)
    requires '&' !in formId1 && '&' !in formId2
    requires QueryString(formId1, portalId1) == QueryString(formId2, portalId2)
    ensures formId1 == formId2 && portalId1 == portalId2
  {
    var q1 := QueryString(formId1, portalId1);
    var q2 := QueryString(formId2, portalId2);
    var rest1 := formId1 + ['&'] + ("portalId=" + portalId1);
    var rest2 := formId2 + ['&'] + ("portalId=" + portalId2);
    assert q1 == "?formId=" + rest1;
    assert q2 == "?formId=" + rest2;
    assert rest1 == q1[8..] == q2[8..] == rest2;
    SplitAtSeparator(formId1, "portalId=" + portalId1, formId2, "portalId=" + portalId2, '&');
    assert portalId1 == ("portalId=" + portalId1)[9..];
  }

  /** The ids are not escaped: a form id holding `&portalId=` makes two different pairs of ids share a query string. */
  lemma QueryStringAmbiguous()
    ensures QueryString("a&portalId=b", "c") == QueryString("a", "b&portalId=c")
  {
  }

  // ---------------------------------------------------------------------------
  // The event registry

  /** The handlers registered for `name`, in registration order. */
  function Registered(handlers: map<string, seq<Handler>>, name: string): seq<Handler> {
    if name in handlers then handlers[name] else []
  }

  /** The registry after `on(name, callback)`. */
  function Register(handlers: map<string, seq<Handler>>, name: string, callback: Handler): (r: map<string, seq<Handler>>)
    ensures r.Keys == handlers.Keys + {name}
    ensures Registered(r, name) == Registered(handlers, name) + [callback]
    ensures forall other :: other != name ==> Registered(r, other) == Registered(handlers, other)
  {
    handlers[name := Registered(handlers, name) + [callback]]
  }

  /** What `triggerEvent(name, payload)` does: each registered handler called once, in registration order. */
  function Dispatch(handlers: map<string, seq<Handler>>, name: string, payload: Payload): (r: seq<Effect>)
    ensures |r| == |Registered(handlers, name)|
    ensures name !in handlers ==> r == []
    ensures forall i :: 0 <= i < |r| ==> r[i] == Invoked(Registered(handlers, name)[i], name, payload)
  {
    var hs := Registered(handlers, name);
    seq(|hs|, i requires 0 <= i < |hs| => Invoked(hs[i], name, payload))
  }

  /**
   * Registering a handler adds exactly one call, at the end, to the dispatch of that
   * event, and changes the dispatch of no other event.
   */
  lemma DispatchAfterRegister(handlers: map<string, seq<Handler>>, name: string, callback: Handler, event: string, payload: Payload)
    ensures Dispatch(Register(handlers, name, callback), event, payload) ==
      Dispatch(handlers, event, payload) + (if event == name then [Invoked(callback, name, payload)] else [])
  {
    var before := Dispatch(handlers, event, payload);
    var after := Dispatch(Register(handlers, name, callback), event, payload);
    if event == name {
      assert forall i :: 0 <= i < |before| ==> after[i] == before[i];
    } else {
      assert Registered(Register(handlers, name, callback), event) == Registered(handlers, event);
    }
  }

  /** Names a plain object inherits from `Object.prototype`. */
  const InheritedNames: set<string> := {
    "constructor", "__proto__", "toString", "toLocaleString", "valueOf", "hasOwnProperty",
    "isPrototypeOf", "propertyIsEnumerable", "__defineGetter__", "__defineSetter__",
    "__lookupGetter__", "__lookupSetter__"}

  /**
   * `on` as written, over a plain object: for a name the object inherits, the lookup
   * finds a truthy inherited member, no list is created, and `push` is not a function
   * of it, so the call throws a TypeError.
   */
  function OnAsWritten(handlers: map<string, seq<Handler>>, name: string, callback: Handler): (r: Result<map<string, seq<Handler>>, string>)
    ensures r.Failure? <==> name !in handlers && name in InheritedNames
    ensures r.Success? ==> r.value == Register(handlers, name, callback)
  {
    if name !in handlers && name in InheritedNames then Failure("TypeError")
    else Success(Register(handlers, name, callback))
  }

  /** Registering a `toString` handler on a fresh builder throws instead of registering it. */
  lemma InheritedNameRejected(callback: Handler)
    ensures OnAsWritten(map[], "toString", callback).Failure?
    ensures Registered(Register(map[], "toString", callback), "toString") == [callback]
  {
  }

  // ---------------------------------------------------------------------------
  // The built form

  function FormIdField(formId: string): FieldDef {
    FieldDef("formId", "Form Id", "hidden", Some(formId), None, None)
  }

  function TenantIdField(portalId: string): FieldDef {
    FieldDef("tenantId", "Tenant Id", "hidden", Some(portalId), None, None)
  }

  /** What `createField` appends: the element, if the type builds one. */
  function Built(element: Option<Node>): seq<Node> {
    if element.Some? then [element.value] else []
  }

  /** The elements of the declared fields, in order, skipping types that build nothing; field `i` draws id `uniqueIds(i)`. */
  function FieldNodes(fields: seq<FieldDef>, uniqueIds: nat -> string): (r: seq<Node>)
    ensures |r| <= |fields|
    decreases |fields|
  {
    if fields == [] then []
    else
      var n := |fields| - 1;
      FieldNodes(fields[..n], uniqueIds) + Built(FormElement(fields[n], uniqueIds(n)))
  }

  /** How many of `fields` have a type that builds an element. */
  function CountKnown(fields: seq<FieldDef>): nat
    decreases |fields|
  {
    if fields == [] then 0
    else CountKnown(fields[..|fields| - 1]) + (if fields[|fields| - 1].fieldType in FieldTypes then 1 else 0)
  }

  /** The form `createForm` builds: the two hidden id fields, then the declared fields. */
  function FormNode(formId: string, portalId: string, fields: seq<FieldDef>, uniqueIds: nat -> string): Node {
    Element("form", map["id" := formId, "novalidate" := ""], {},
      [HiddenNode(FormIdField(formId)), HiddenNode(TenantIdField(portalId))] + FieldNodes(fields, uniqueIds))
  }

  /** One element per field of a known type. */
  lemma {:induction false} FieldNodesLength(fields: seq<FieldDef>, uniqueIds: nat -> string)
    ensures |FieldNodes(fields, uniqueIds)| == CountKnown(fields)
    decreases |fields|
  {
    if fields != [] {
      FieldNodesLength(fields[..|fields| - 1], uniqueIds);
    }
  }

  /**
   * One element per field of a known type, and the element of field `i` sits after
   * exactly the elements of the known fields before it: declaration order, unknown
   * types skipped.
   */
  lemma {:induction false} FieldNodesAt(fields: seq<FieldDef>, uniqueIds: nat -> string, i: nat)
    requires i < |fields|
    ensures |FieldNodes(fields, uniqueIds)| == CountKnown(fields)
    ensures fields[i].fieldType in FieldTypes ==>
      && CountKnown(fields[..i]) < CountKnown(fields)
      && FieldNodes(fields, uniqueIds)[CountKnown(fields[..i])] == FormElement(fields[i], uniqueIds(i)).value
    decreases |fields|
  {
    var n := |fields| - 1;
    var prefix := fields[..n];
    FieldNodesLength(fields, uniqueIds);
    FieldNodesLength(prefix, uniqueIds);
    var last := Built(FormElement(fields[n], uniqueIds(n)));
    assert FieldNodes(fields, uniqueIds) == FieldNodes(prefix, uniqueIds) + last;
    if i < n {
      FieldNodesAt(prefix, uniqueIds, i);
      assert prefix[..i] == fields[..i];
      assert prefix[i] == fields[i];
    } else {
      assert prefix == fields[..i];
    }
  }

  /**
   * The form's children: the hidden `formId` field holding the form id, the hidden
   * `tenantId` field holding the portal id, then the declared fields.
   */
  lemma FormLayout(formId: string, portalId: string, fields: seq<FieldDef>, uniqueIds: nat -> string)
    ensures var f := FormNode(formId, portalId, fields, uniqueIds);
      && f.attrs["id"] == formId && "novalidate" in f.attrs
      && |f.children| == 2 + CountKnown(fields)
      && f.children[0].attrs == map["name" := "formId", "value" := formId, "type" := "hidden"]
      && f.children[1].attrs == map["name" := "tenantId", "value" := portalId, "type" := "hidden"]
      && f.children[2..] == FieldNodes(fields, uniqueIds)
  {
    var f := FormNode(formId, portalId, fields, uniqueIds);
    FieldNodesLength(fields, uniqueIds);
    assert f.children[2..] == FieldNodes(fields, uniqueIds);
  }

  /** No child of a node carries the class `error`. */
  predicate ErrorFree(n: Node) {
    n.Element? ==> CountWithClass(n.children, "error") == 0
  }

  /**
   * No rule of the field sets a class list holding `error`: a rule keyed `class` is a
   * `setAttribute('class', …)`, which gives the control those classes.
   */
  predicate NoErrorClassRule(def: FieldDef) {
    "error" !in ClassAfter({}, RuleAttrs(def.validations))
  }

  /**
   * The control a field is built around is not itself an error node, unless a rule of a text,
   * number or textarea field gives it the class `error` (the other controls carry their rules
   * on nested elements).
   */
  lemma FieldControlNotError(def: FieldDef, uniqueId: string)
    requires def.fieldType in FieldTypes - {"hidden"}
    requires def.fieldType in {"text", "number", "textarea"} ==> NoErrorClassRule(def)
    ensures !HasClass(FieldControl(def, uniqueId), "error")
  {
    LiteralNames();
    var placeholder: seq<Attr> := [("placeholder", def.caption)];
    assert ClassAfter({}, placeholder) == {} by {
      assert placeholder[..0] == [];
    }
  }

  /** A rule `{key: "class", value: "error"}` makes a fresh text field hold an error node, which the next passing validation removes together with the input. */
  lemma ClassRuleMakesErrorNode()
    ensures var def := FieldDef("email", "Email", "text", None, None, Some([Rule("class", "error", None)]));
      var field := FieldContainer(FieldControl(def, ""));
      && CountWithClass(field.children, "error") == 1
      && ToggleErrorMessage(field, None).children == []
  {
    var def := FieldDef("email", "Email", "text", None, None, Some([Rule("class", "error", None)]));
    LiteralNames();
    LowerCaseKeeps("class");
    TokensOfWord("error");
    var pairs := RuleAttrs(def.validations);
    var placeholder: seq<Attr> := [("placeholder", def.caption)];
    assert ClassAfter({}, placeholder) == {} by {
      assert placeholder[..0] == [];
    }
    assert pairs == [("class", "error")];
    var control := FieldControl(def, "");
    assert control.classes == {"error"};
    assert [control][1..] == [];
  }

  /** The element built for one field holds no error node. */
  lemma FormElementErrorFree(def: FieldDef, uniqueId: string)
    requires NoErrorClassRule(def)
    ensures var e := FormElement(def, uniqueId); e.Some? ==> ErrorFree(e.value)
  {
    var e := FormElement(def, uniqueId);
    if e.Some? {
      if def.fieldType == "hidden" {
        assert e.value.children == [];
      } else {
        FieldControlNotError(def, uniqueId);
        var control := FieldControl(def, uniqueId);
        assert e.value.children == [control];
        assert [control][1..] == [];
        assert CountWithClass([control], "error") == 0;
      }
    }
  }

  lemma {:induction false} FieldNodesErrorFree(fields: seq<FieldDef>, uniqueIds: nat -> string)
    requires forall d :: d in fields ==> NoErrorClassRule(d)
    ensures forall k :: 0 <= k < |FieldNodes(fields, uniqueIds)| ==> ErrorFree(FieldNodes(fields, uniqueIds)[k])
    decreases |fields|
  {
    if fields != [] {
      var n := |fields| - 1;
      assert forall d :: d in fields[..n] ==> d in fields;
      FieldNodesErrorFree(fields[..n], uniqueIds);
      var e := FormElement(fields[n], uniqueIds(n));
      assert fields[n] in fields;
      FormElementErrorFree(fields[n], uniqueIds(n));
      var prefix := FieldNodes(fields[..n], uniqueIds);
      assert FieldNodes(fields, uniqueIds) == prefix + Built(e);
      assert forall k :: 0 <= k < |Built(e)| ==> ErrorFree(Built(e)[k]);
    }
  }

  // ---------------------------------------------------------------------------
  // Validation of the built form

  /** `settings.find((setting) => setting.key === name)`. */
  function Find(settings: seq<FieldDef>, name: Option<string>): Option<FieldDef> {
    if name.None? || settings == [] then None
    else if settings[0].key == name.value then Some(settings[0])
    else Find(settings[1..], name)
  }

  /** `find` finds a definition iff one carries the name as its key, and what it finds carries it. */
  lemma {:induction false} FindMeaning(settings: seq<FieldDef>, name: Option<string>)
    ensures Find(settings, name).None? <==> name.None? || forall i :: 0 <= i < |settings| ==> settings[i].key != name.value
    ensures Find(settings, name).Some? ==> Find(settings, name).value.key == name.value && Find(settings, name).value in settings
  {
    if name.Some? && settings != [] && settings[0].key != name.value {
      FindMeaning(settings[1..], name);
      assert forall i :: 1 <= i < |settings| ==> settings[1..][i - 1] == settings[i];
    }
  }

  /** `find` returns the first definition with the name, not a later one. */
  lemma {:induction false} FindFirst(settings: seq<FieldDef>, name: string, i: nat)
    requires i < |settings| && settings[i].key == name
    requires forall j :: 0 <= j < i ==> settings[j].key != name
    ensures Find(settings, Some(name)) == Some(settings[i])
  {
    if i > 0 {
      FindFirst(settings[1..], name, i - 1);
    }
  }

  /**
   * What `validateField` returns: `true` for a control no definition names, else
   * whether the definition's rules pass; a pattern that does not compile throws.
   */
  function FieldResult(host: Host, settings: seq<FieldDef>, c: Control): Result<bool, string> {
    match Find(settings, c.name)
    case None => Success(true)
    case Some(def) =>
      match Evaluate(host, c.value, def.validations)
      case Passed => Success(true)
      case Violated(_) => Success(false)
      case InvalidPattern(source) => Failure(source)
  }

  /** A control validates when no definition names it, and otherwise exactly when its rules pass; only a bad pattern throws. */
  lemma FieldResultMeaning(host: Host, settings: seq<FieldDef>, c: Control)
    ensures Find(settings, c.name).None? ==> FieldResult(host, settings, c) == Success(true)
    ensures Find(settings, c.name).Some? ==>
      var v := Evaluate(host, c.value, Find(settings, c.name).value.validations);
      var r := FieldResult(host, settings, c);
      && (r == Success(true) <==> v == Passed)
      && (r == Success(false) <==> v.Violated?)
      && (r.Failure? <==> v.InvalidPattern?)
  {
  }

  /** `toggleErrorMessage` on the control: it acts on the enclosing `form-field` child of the form, if any. */
  function ShowMessage(form: Option<Node>, field: Option<nat>, message: Option<string>): (r: Option<Node>)
    ensures r.Some? <==> form.Some?
    ensures form.Some? && form.value.Element? ==>
      && r.value.Element? && r.value.tag == form.value.tag && r.value.attrs == form.value.attrs
      && |r.value.children| == |form.value.children|
      && forall i :: 0 <= i < |form.value.children| && field != Some(i) ==> r.value.children[i] == form.value.children[i]
  {
    if form.Some? && form.value.Element? && field.Some? && field.value < |form.value.children|
      && HasClass(form.value.children[field.value], "form-field")
    then
      var k := field.value;
      var f := form.value;
      Some(f.(children := f.children[k := ToggleErrorMessage(f.children[k], message)]))
    else form
  }

  /** The form after `validateField` on one control. */
  function AfterField(host: Host, settings: seq<FieldDef>, form: Option<Node>, c: Control): (r: Option<Node>)
    ensures r.Some? <==> form.Some?
  {
    match Find(settings, c.name)
    case None => form
    case Some(def) =>
      match Evaluate(host, c.value, def.validations)
      case Passed => ShowMessage(form, c.field, None)
      case Violated(m) => ShowMessage(form, c.field, Some(m))
      case InvalidPattern(_) => form
  }

  /** One turn of `validateForm`'s loop: a throw escapes, otherwise the results are AND-ed. */
  function Step(acc: Result<bool, string>, r: Result<bool, string>): Result<bool, string> {
    match acc
    case Failure(_) => acc
    case Success(valid) =>
      match r
      case Failure(e) => Failure(e)
      case Success(ok) => Success(valid && ok)
  }

  /** The loop over per-control results, in order. */
  function Combine(results: seq<Result<bool, string>>): Result<bool, string>
    decreases |results|
  {
    if results == [] then Success(true)
    else Step(Combine(results[..|results| - 1]), results[|results| - 1])
  }

  lemma {:induction false} CombineValid(results: seq<Result<bool, string>>)
    ensures Combine(results) == Success(true) <==> forall i :: 0 <= i < |results| ==> results[i] == Success(true)
    decreases |results|
  {
    if results != [] {
      var n := |results| - 1;
      CombineValid(results[..n]);
      assert forall i :: 0 <= i < n ==> results[..n][i] == results[i];
    }
  }

  lemma {:induction false} CombineThrows(results: seq<Result<bool, string>>)
    ensures Combine(results).Success? <==> forall i :: 0 <= i < |results| ==> results[i].Success?
    decreases |results|
  {
    if results != [] {
      var n := |results| - 1;
      CombineThrows(results[..n]);
      assert forall i :: 0 <= i < n ==> results[..n][i] == results[i];
    }
  }

  /** `validateField` on each control, in order. */
  function Results(host: Host, settings: seq<FieldDef>, controls: seq<Control>): seq<Result<bool, string>> {
    seq(|controls|, i requires 0 <= i < |controls| => FieldResult(host, settings, controls[i]))
  }

  /** What `validateForm` returns: every field validated, results AND-ed; the first throw escapes. */
  function FormVerdict(host: Host, settings: seq<FieldDef>, controls: seq<Control>): Result<bool, string> {
    Combine(Results(host, settings, controls))
  }

  /** One more control: the loop's next turn. */
  lemma FormVerdictSnoc(host: Host, settings: seq<FieldDef>, controls: seq<Control>, c: Control)
    ensures FormVerdict(host, settings, controls + [c]) ==
      Step(FormVerdict(host, settings, controls), FieldResult(host, settings, c))
  {
    var rs := Results(host, settings, controls + [c]);
    assert rs[..|controls|] == Results(host, settings, controls);
  }

  /** The form after `validateForm`: every control's error display refreshed, up to a throw. */
  function Refreshed(host: Host, settings: seq<FieldDef>, form: Option<Node>, controls: seq<Control>): Option<Node>
    decreases |controls|
  {
    if controls == [] then form
    else
      var n := |controls| - 1;
      var before := Refreshed(host, settings, form, controls[..n]);
      if FormVerdict(host, settings, controls[..n]).Failure? then before
      else AfterField(host, settings, before, controls[n])
  }

  /** One more control: the display is refreshed for it unless an earlier control threw. */
  lemma RefreshedSnoc(host: Host, settings: seq<FieldDef>, form: Option<Node>, controls: seq<Control>, c: Control)
    ensures Refreshed(host, settings, form, controls + [c]) ==
      if FormVerdict(host, settings, controls).Failure? then Refreshed(host, settings, form, controls)
      else AfterField(host, settings, Refreshed(host, settings, form, controls), c)
  {
    var cs := controls + [c];
    assert cs[..|cs| - 1] == controls;
  }

  /** The form is valid exactly when every control validates. */
  lemma FormVerdictValid(host: Host, settings: seq<FieldDef>, controls: seq<Control>)
    ensures FormVerdict(host, settings, controls) == Success(true) <==>
      forall i :: 0 <= i < |controls| ==> FieldResult(host, settings, controls[i]) == Success(true)
  {
    var rs := Results(host, settings, controls);
    CombineValid(rs);
    assert forall i :: 0 <= i < |controls| ==> rs[i] == FieldResult(host, settings, controls[i]);
  }

  /** Validating the form throws exactly when some control throws. */
  lemma FormVerdictThrows(host: Host, settings: seq<FieldDef>, controls: seq<Control>)
    ensures FormVerdict(host, settings, controls).Success? <==>
      forall i :: 0 <= i < |controls| ==> FieldResult(host, settings, controls[i]).Success?
  {
    var rs := Results(host, settings, controls);
    CombineThrows(rs);
    assert forall i :: 0 <= i < |controls| ==> rs[i] == FieldResult(host, settings, controls[i]);
  }

  /** The form is invalid exactly when no control throws and at least one does not validate. */
  lemma FormVerdictInvalid(host: Host, settings: seq<FieldDef>, controls: seq<Control>)
    ensures FormVerdict(host, settings, controls) == Success(false) <==>
      && (forall i :: 0 <= i < |controls| ==> FieldResult(host, settings, controls[i]).Success?)
      && (exists i :: 0 <= i < |controls| && FieldResult(host, settings, controls[i]) == Success(false))
  {
    FormVerdictValid(host, settings, controls);
    FormVerdictThrows(host, settings, controls);
  }

  /**
   * A control that does not validate does not stop the others: after controls `a`
   * that throw nothing, the verdict on `b` decides whether the whole throws, and
   * otherwise the results are AND-ed.
   */
  lemma {:induction false} VerdictContinues(host: Host, settings: seq<FieldDef>, a: seq<Control>, b: seq<Control>)
    requires FormVerdict(host, settings, a).Success?
    ensures FormVerdict(host, settings, a + b).Success? <==> FormVerdict(host, settings, b).Success?
    ensures FormVerdict(host, settings, a + b).Success? ==>
      FormVerdict(host, settings, a + b).value == (FormVerdict(host, settings, a).value && FormVerdict(host, settings, b).value)
    decreases |b|
  {
    if b == [] {
      assert a + b == a;
      assert Results(host, settings, b) == [];
    } else {
      var n := |b| - 1;
      VerdictContinues(host, settings, a, b[..n]);
      assert a + b == (a + b[..n]) + [b[n]];
      assert b == b[..n] + [b[n]];
      FormVerdictSnoc(host, settings, a + b[..n], b[n]);
      FormVerdictSnoc(host, settings, b[..n], b[n]);
    }
  }

  /**
   * After controls `a` that throw nothing, the controls `b` are validated and
   * displayed just as they would be on their own.
   */
  lemma {:induction false} RefreshContinues(host: Host, settings: seq<FieldDef>, form: Option<Node>, a: seq<Control>, b: seq<Control>)
    requires FormVerdict(host, settings, a).Success?
    ensures Refreshed(host, settings, form, a + b) == Refreshed(host, settings, Refreshed(host, settings, form, a), b)
    decreases |b|
  {
    if b == [] {
      assert a + b == a;
    } else {
      var n := |b| - 1;
      var front, c := b[..n], b[n];
      var mid := Refreshed(host, settings, form, a);
      assert a + b == (a + front) + [c];
      assert b == front + [c];
      VerdictContinues(host, settings, a, front);
      calc {
        Refreshed(host, settings, form, a + b);
        Refreshed(host, settings, form, (a + front) + [c]);
        { RefreshedSnoc(host, settings, form, a + front, c); }
        if FormVerdict(host, settings, a + front).Failure? then Refreshed(host, settings, form, a + front)
        else AfterField(host, settings, Refreshed(host, settings, form, a + front), c);
        { RefreshContinues(host, settings, form, a, front); }
        if FormVerdict(host, settings, front).Failure? then Refreshed(host, settings, mid, front)
        else AfterField(host, settings, Refreshed(host, settings, mid, front), c);
        { RefreshedSnoc(host, settings, mid, front, c); }
        Refreshed(host, settings, mid, front + [c]);
      }
    }
  }

  predicate AtMostOneError(n: Node) {
    n.Element? ==> CountWithClass(n.children, "error") <= 1
  }

  /** Every child of the form holds at most one error node. */
  predicate ErrorsUnique(form: Option<Node>) {
    form.Some? && form.value.Element? ==>
      forall k :: 0 <= k < |form.value.children| ==> AtMostOneError(form.value.children[k])
  }

  lemma ShowMessageKeepsErrorsUnique(form: Option<Node>, field: Option<nat>, message: Option<string>)
    requires ErrorsUnique(form)
    ensures ErrorsUnique(ShowMessage(form, field, message))
  {
    if form.Some? && form.value.Element? && field.Some? && field.value < |form.value.children|
      && HasClass(form.value.children[field.value], "form-field") {
      var f := form.value;
      var k := field.value;
      SingleErrorNode(f.children[k], message);
      var g := ShowMessage(form, field, message).value;
      assert forall j :: 0 <= j < |g.children| ==> g.children[j] == if j == k then ToggleErrorMessage(f.children[k], message) else f.children[j];
    }
  }

  lemma AfterFieldKeepsErrorsUnique(host: Host, settings: seq<FieldDef>, form: Option<Node>, c: Control)
    requires ErrorsUnique(form)
    ensures ErrorsUnique(AfterField(host, settings, form, c))
  {
    match Find(settings, c.name)
    case None =>
    case Some(def) =>
      match Evaluate(host, c.value, def.validations)
      case Passed => ShowMessageKeepsErrorsUnique(form, c.field, None);
      case Violated(m) => ShowMessageKeepsErrorsUnique(form, c.field, Some(m));
      case InvalidPattern(_) =>
  }

  /** However many controls share a field, validating the form leaves at most one error node in each. */
  lemma {:induction false} RefreshedErrorsUnique(host: Host, settings: seq<FieldDef>, form: Option<Node>, controls: seq<Control>)
    requires ErrorsUnique(form)
    ensures ErrorsUnique(Refreshed(host, settings, form, controls))
    decreases |controls|
  {
    if controls != [] {
      var n := |controls| - 1;
      var before := Refreshed(host, settings, form, controls[..n]);
      RefreshedErrorsUnique(host, settings, form, controls[..n]);
      if FormVerdict(host, settings, controls[..n]).Success? {
        AfterFieldKeepsErrorsUnique(host, settings, before, controls[n]);
      }
    }
  }

  /** A freshly built form holds no error node, as long as no rule gives a control the class `error`. */
  lemma BuiltFormErrorFree(formId: string, portalId: string, fields: seq<FieldDef>, uniqueIds: nat -> string)
    requires forall d :: d in fields ==> NoErrorClassRule(d)
    ensures ErrorsUnique(Some(FormNode(formId, portalId, fields, uniqueIds)))
    ensures var f := FormNode(formId, portalId, fields, uniqueIds);
      forall k :: 0 <= k < |f.children| ==> ErrorFree(f.children[k])
  {
    var f := FormNode(formId, portalId, fields, uniqueIds);
    FieldNodesErrorFree(fields, uniqueIds);
    assert forall k :: 2 <= k < |f.children| ==> f.children[k] == FieldNodes(fields, uniqueIds)[k - 2];
  }

  // ---------------------------------------------------------------------------
  // The controller

  class FormBuilder {
    const container: ElementRef
    const options: Options
    const env: Environment
    const host: Host
    /** The id `getUniqueId` returns for the field at each position. */
    const uniqueIds: nat -> string

    /** `eventHandlers`. */
    var handlers: map<string, seq<Handler>>
    /** `settings`: the field definitions the form was built from. */
    var settings: seq<FieldDef>
    /** The form appended to the container, once built. */
    var form: Option<Node>
    /** The field definitions are still being fetched. */
    var pendingFetch: bool
    /** Submissions posted whose response has not arrived. */
    var pendingSubmissions: nat
    var trace: seq<Effect>

    /** A builder whose definitions are still being fetched has no form yet. */
    predicate Valid()
      reads this
    {
      pendingFetch ==> form.None?
    }

    /**
     * The state construction leaves: the given parts, no handler, nothing posted, and
     * either the form built from inline data (its `init` fired before any handler could
     * be registered, so nothing is traced) or the definitions' fetch under way.
     */
    ghost predicate Initialized(container: ElementRef, options: Options, env: Environment, host: Host, uniqueIds: nat -> string)
      reads this
    {
      && this.container == container && this.options == options && this.env == env
      && this.host == host && this.uniqueIds == uniqueIds
      && handlers == map[] && pendingSubmissions == 0
      && (options.data.Some? ==>
        && settings == options.data.value
        && form == Some(FormNode(options.formId, options.portalId, settings, uniqueIds))
        && !pendingFetch && trace == [])
      && (options.data.None? ==>
        && settings == [] && form == None && pendingFetch
        && trace == [Fetched(FetchUrl(env, options))])
    }

    /**
     * The constructor once the container is found: `buildForm`. Inline data builds the
     * form at once and fires `init` while no handler can have been registered yet;
     * otherwise the definitions are fetched.
     */
    constructor Init(container: ElementRef, options: Options, env: Environment, host: Host, uniqueIds: nat -> string)
      ensures Initialized(container, options, env, host, uniqueIds) && Valid()
    {
      this.container := container;
      this.options := options;
      this.env := env;
      this.host := host;
      this.uniqueIds := uniqueIds;
      handlers := map[];
      settings := [];
      form := None;
      pendingFetch := false;
      pendingSubmissions := 0;
      trace := [];
      new;
      if options.data.Some? {
        SetupForm(options.data.value);
      } else {
        pendingFetch := true;
        trace := trace + [Fetched(FetchUrl(env, options))];
      }
    }

    /**
     * `new FormBuilder(element, options)`: an invalid selector throws its `SyntaxError`,
     * a selector or element that gives no container throws `Container not found.`.
     */
    static method Construct(document: Document, element: Target, options: Options, env: Environment, host: Host, uniqueIds: nat -> string)
      returns (r: Result<FormBuilder, string>)
      ensures var c := ResolveContainer(document, element);
        && (r.Success? <==> c.Success? && c.value.Some?)
        && (c.Failure? ==> r.Failure? && r.error == c.error)
        && (c == Success(None) ==> r.Failure? && r.error == ContainerNotFound)
      ensures r.Success? ==>
        && fresh(r.value) && r.value.Valid()
        && r.value.Initialized(ResolveContainer(document, element).value.value, options, env, host, uniqueIds)
    {
      var container := ResolveContainer(document, element);
      if container.Failure? {
        return Failure(container.error);
      }
      if container.value.None? {
        return Failure(ContainerNotFound);
      }
      var builder := new FormBuilder.Init(container.value.value, options, env, host, uniqueIds);
      return Success(builder);
    }

    /**
     * `FormBuilder.create(options)`: finds or inserts the container, then constructs;
     * an invalid selector throws its `SyntaxError` before anything is built.
     */
    static method Create(document: Document, options: Options, env: Environment, host: Host, uniqueIds: nat -> string)
      returns (r: Result<FormBuilder, string>)
      ensures var c := CreateContainer(document, options.selector);
        && (r.Success? <==> c.Success? && c.value.Some?)
        && (c.Failure? ==> r.Failure? && r.error == c.error)
        && (c == Success(None) ==> r.Failure? && r.error == ContainerNotFound)
      ensures r.Success? ==>
        && fresh(r.value) && r.value.Valid()
        && r.value.Initialized(CreateContainer(document, options.selector).value.value, options, env, host, uniqueIds)
    {
      var element := CreateContainer(document, options.selector);
      if element.Failure? {
        return Failure(element.error);
      }
      if element.value.None? {
        return Failure(ContainerNotFound);
      }
      r := Construct(document, ByElement(element.value), options, env, host, uniqueIds);
    }

    /** `on(name, callback)`: append to the name's list, creating it when absent. */
    method On(name: string, callback: Handler)
      modifies this`handlers
      ensures handlers == Register(old(handlers), name, callback)
    {
      if name !in handlers {
        handlers := handlers[name := []];
      }
      handlers := handlers[name := handlers[name] + [callback]];
    }

    /** `triggerEvent(name, payload)`. */
    method TriggerEvent(name: string, payload: Payload)
      modifies this`trace
      ensures trace == old(trace) + Dispatch(handlers, name, payload)
    {
      if name in handlers {
        var hs := handlers[name];
        for i := 0 to |hs|
          invariant trace == old(trace) + seq(i, j requires 0 <= j < i => Invoked(hs[j], name, payload))
        {
          trace := trace + [Invoked(hs[i], name, payload)];
        }
      }
    }

    /** `createField(field, form)`: append the field's element, if its type builds one. */
    static method CreateField(f: Node, def: FieldDef, uniqueId: string) returns (r: Node)
      requires f.Element?
      ensures r == f.(children := f.children + Built(FormElement(def, uniqueId)))
    {
      var element := CreateFormElement(def, uniqueId);
      r := f;
      if element.Some? {
        r := AppendChild(r, element.value);
      }
    }

    /** `setupHiddenFields`: the form id, then the tenant id. */
    static method SetupHiddenFields(formId: string, portalId: string, f: Node) returns (r: Node)
      requires f.Element?
      ensures r == f.(children := f.children + [HiddenNode(FormIdField(formId)), HiddenNode(TenantIdField(portalId))])
    {
      r := CreateField(f, FormIdField(formId), "");
      r := CreateField(r, TenantIdField(portalId), "");
    }

    /** `settings.fields.forEach((field) => this.createField(field, form))`. */
    static method AppendFields(f: Node, fields: seq<FieldDef>, uniqueIds: nat -> string) returns (r: Node)
      requires f.Element?
      ensures r == f.(children := f.children + FieldNodes(fields, uniqueIds))
    {
      r := f;
      for i := 0 to |fields|
        invariant r.Element? && r.tag == f.tag && r.attrs == f.attrs && r.classes == f.classes
        invariant r.children == f.children + FieldNodes(fields[..i], uniqueIds)
      {
        var before := r.children;
        var built := Built(FormElement(fields[i], uniqueIds(i)));
        r := CreateField(r, fields[i], uniqueIds(i));
        assert r.children == before + built;
        assert fields[..i + 1][..i] == fields[..i];
        assert FieldNodes(fields[..i + 1], uniqueIds) == FieldNodes(fields[..i], uniqueIds) + built;
      }
      assert fields[..|fields|] == fields;
    }

    /** `createForm`: build the form, append it to the container, fire `init`. */
    method CreateForm()
      modifies this`form, this`trace
      ensures form == Some(FormNode(options.formId, options.portalId, settings, uniqueIds))
      ensures trace == old(trace) + Dispatch(handlers, "init", InitSucceeded)
    {
      LiteralNames();
      var f := NewElement("form");
      f := SetAttribute(f, "id", options.formId);
      f := SetAttribute(f, "novalidate", "");
      assert f == Element("form", map["id" := options.formId, "novalidate" := ""], {}, []);
      f := SetupHiddenFields(options.formId, options.portalId, f);
      f := AppendFields(f, settings, uniqueIds);
      assert f.children == [HiddenNode(FormIdField(options.formId)), HiddenNode(TenantIdField(options.portalId))]
        + FieldNodes(settings, uniqueIds);
      form := Some(f);
      TriggerEvent("init", InitSucceeded);
    }

    /** `setupForm(options, fields)`. */
    method SetupForm(fields: seq<FieldDef>)
      modifies this`settings, this`form, this`trace
      ensures settings == fields
      ensures form == Some(FormNode(options.formId, options.portalId, fields, uniqueIds))
      ensures trace == old(trace) + Dispatch(handlers, "init", InitSucceeded)
    {
      settings := fields;
      CreateForm();
    }

    /** The fetch of the field definitions answered with a list of fields. */
    method FieldsArrived(fields: seq<FieldDef>)
      requires pendingFetch
      modifies this`settings, this`form, this`trace, this`pendingFetch
      ensures !pendingFetch && settings == fields && Valid()
      ensures form == Some(FormNode(options.formId, options.portalId, fields, uniqueIds))
      ensures trace == old(trace) + Dispatch(handlers, "init", InitSucceeded)
    {
      pendingFetch := false;
      SetupForm(fields);
    }

    /** The fetch of the field definitions failed: `init` fires with a failure and no form is built. */
    method FetchFailed()
      requires pendingFetch
      modifies this`trace, this`pendingFetch
      ensures !pendingFetch && form == old(form) && Valid()
      ensures trace == old(trace) + Dispatch(handlers, "init", InitFailed)
    {
      pendingFetch := false;
      TriggerEvent("init", InitFailed);
    }

    /** `validateField(field)`, run by a field's listeners, which exist once the form is built. */
    method ValidateField(c: Control) returns (r: Result<bool, string>)
      requires form.Some? && Valid()
      modifies this`form
      ensures form.Some? && Valid()
      ensures r == FieldResult(host, settings, c)
      ensures form == AfterField(host, settings, old(form), c)
    {
      var def := Find(settings, c.name);
      if def.None? {
        return Success(true);
      }
      var verdict := ValidateInput(host, c.value, def.value.validations);
      if verdict.InvalidPattern? {
        return Failure(verdict.source);
      }
      var errorMessage := if verdict.Violated? then Some(verdict.message) else None;
      form := ShowMessage(form, c.field, errorMessage);
      var formValid := true;
      if errorMessage.Some? {
        formValid := false;
      }
      return Success(formValid);
    }

    /** `validateForm()` over the container's controls, in document order. */
    method ValidateForm(controls: seq<Control>) returns (r: Result<bool, string>)
      requires form.Some? && Valid()
      modifies this`form
      ensures form.Some? && Valid()
      ensures r == FormVerdict(host, settings, controls)
      ensures form == Refreshed(host, settings, old(form), controls)
    {
      var formValid := true;
      for i := 0 to |controls|
        invariant FormVerdict(host, settings, controls[..i]) == Success(formValid)
        invariant form.Some? && Valid() && form == Refreshed(host, settings, old(form), controls[..i])
      {
        assert controls[..i + 1] == controls[..i] + [controls[i]];
        FormVerdictSnoc(host, settings, controls[..i], controls[i]);
        RefreshedSnoc(host, settings, old(form), controls[..i], controls[i]);
        var ok := ValidateField(controls[i]);
        if ok.Failure? {
          assert FormVerdict(host, settings, controls[..i + 1]) == ok;
          FailureStaysFailure(controls, i + 1);
          return ok;
        }
        if !ok.value {
          formValid := false;
        }
      }
      assert controls[..|controls|] == controls;
      return Success(formValid);
    }

    /** Once a control throws, later controls change neither the verdict nor the form. */
    lemma {:induction false} FailureStaysFailure(controls: seq<Control>, i: nat)
      requires i <= |controls| && FormVerdict(host, settings, controls[..i]).Failure?
      ensures FormVerdict(host, settings, controls) == FormVerdict(host, settings, controls[..i])
      ensures forall form :: Refreshed(host, settings, form, controls) == Refreshed(host, settings, form, controls[..i])
      decreases |controls| - i
    {
      if i == |controls| {
        assert controls[..i] == controls;
      } else {
        assert controls[..i + 1] == controls[..i] + [controls[i]];
        FormVerdictSnoc(host, settings, controls[..i], controls[i]);
        forall form {
          RefreshedSnoc(host, settings, form, controls[..i], controls[i]);
        }
        FailureStaysFailure(controls, i + 1);
      }
    }

    /**
     * The submit listener: validate the form; only a valid form fires `beforeSubmit`
     * and is then posted, to `submitUrl` or else `save_url`. The listener is attached
     * to the built form, so it runs only once there is one.
     */
    method HandleSubmit(controls: seq<Control>)
      requires form.Some? && Valid()
      modifies this`form, this`trace, this`pendingSubmissions
      ensures form.Some? && Valid()
      ensures form == Refreshed(host, settings, old(form), controls)
      ensures FormVerdict(host, settings, controls) == Success(true) ==>
        && trace == old(trace) + Dispatch(handlers, "beforeSubmit", BeforeSubmit) + [Posted(SubmitUrl(env, options))]
        && pendingSubmissions == old(pendingSubmissions) + 1
      ensures FormVerdict(host, settings, controls) != Success(true) ==>
        trace == old(trace) && pendingSubmissions == old(pendingSubmissions)
    {
      var formValid := ValidateForm(controls);
      if formValid != Success(true) {
        return;
      }
      TriggerEvent("beforeSubmit", BeforeSubmit);
      SaveSubmission();
    }

    /** `saveSubmission`: post the form's data. */
    method SaveSubmission()
      modifies this`trace, this`pendingSubmissions
      ensures trace == old(trace) + [Posted(SubmitUrl(env, options))]
      ensures pendingSubmissions == old(pendingSubmissions) + 1
    {
      trace := trace + [Posted(SubmitUrl(env, options))];
      pendingSubmissions := pendingSubmissions + 1;
    }

    /** A posted submission was answered: on success reset the form; either way fire `afterSubmit`. */
    method SubmissionSettled(success: bool)
      requires pendingSubmissions > 0
      modifies this`trace, this`pendingSubmissions
      ensures pendingSubmissions == old(pendingSubmissions) - 1
      ensures trace == old(trace) + (if success then [FormReset] else []) + Dispatch(handlers, "afterSubmit", AfterSubmit(success))
    {
      pendingSubmissions := pendingSubmissions - 1;
      if success {
        trace := trace + [FormReset];
      }
      TriggerEvent("afterSubmit", AfterSubmit(success));
    }
  }
}
