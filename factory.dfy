/**
 * The element factory: `createFormElement` and its `create*` helpers,
 * which turn one field definition into the subtree the form shows.
 * Each builder is given twice: a function stating the finished subtree,
 * and a method taking the source's steps (`setAttribute`, `classList.add`,
 * `appendChild`, its loops), proved to build exactly that subtree.
 */
module Factory {
  import opened Wrappers
  import opened JsString
  import opened Dom
  import opened Validation

  /** An option of a select, radio group or custom select. */
  datatype Item = Item(caption: string, value: string)

  /** A field definition; `fieldType` is free text, unknown types build nothing. */
  datatype FieldDef = FieldDef(
    key: string,
    caption: string,
    fieldType: string,
    defaultValue: Option<string>,
    values: Option<seq<Item>>,
    validations: Option<seq<Rule>>)

  const FieldTypes: set<string> :=
    {"text", "number", "textarea", "checkbox", "radio", "select", "custom-select", "hidden", "button"}

  /** `settings.values ?? []`, for the builders that iterate with `values?.forEach`. */
  function Values(def: FieldDef): seq<Item> {
    if def.values.Some? then def.values.value else []
  }

  /** `defaultValue ? defaultValue : ''`. */
  function DefaultValue(def: FieldDef): string {
    if def.defaultValue.Some? then def.defaultValue.value else ""
  }

  /** The `setAttribute(key, value)` calls `setValidations` makes, one per rule, in order. */
  function RuleAttrs(validations: Option<seq<Rule>>): seq<Attr> {
    match validations
    case None => []
    case Some(rules) => seq(|rules|, i requires 0 <= i < |rules| => (rules[i].key, rules[i].value))
  }

  // ---------------------------------------------------------------------------
  // The finished subtrees

  function InputNode(def: FieldDef, attributes: seq<Attr>): Node {
    Element("input",
      Assign(Assign(map["name" := def.key, "type" := def.fieldType], attributes), RuleAttrs(def.validations)),
      ClassAfter(ClassAfter({}, attributes), RuleAttrs(def.validations)), [])
  }

  function HiddenNode(def: FieldDef): Node {
    Element("input", map["name" := def.key, "value" := DefaultValue(def), "type" := "hidden"], {}, [])
  }

  function CheckboxInput(def: FieldDef, attributes: seq<Attr>, uniqueId: string): Node {
    Element("input",
      Assign(Assign(map["name" := def.key, "id" := uniqueId, "type" := def.fieldType], attributes),
        RuleAttrs(def.validations)),
      ClassAfter(ClassAfter({}, attributes), RuleAttrs(def.validations)), [])
  }

  /** A label holding the checkbox and then the field's label text, tied to the checkbox by `for`. */
  function CheckboxNode(def: FieldDef, attributes: seq<Attr>, uniqueId: string): (r: Node)
    ensures r.Element? && r.tag == "label" && |r.children| == 2
    ensures r.children[0] == CheckboxInput(def, attributes, uniqueId) && r.children[1] == Text(def.caption)
    ensures r.attrs == map["for" := r.children[0].attrs["id"]]
  {
    var input := CheckboxInput(def, attributes, uniqueId);
    Element("label", map["for" := input.attrs["id"]], {}, [input, Text(def.caption)])
  }

  function TextAreaNode(def: FieldDef, attributes: seq<Attr>): Node {
    Element("textarea", Assign(Assign(map["name" := def.key], attributes), RuleAttrs(def.validations)),
      ClassAfter(ClassAfter({}, attributes), RuleAttrs(def.validations)), [])
  }

  /** `setOption`'s option: value attribute and text. */
  function OptionNode(item: Item): Node {
    Element("option", map["value" := item.value], {}, TextContent(item.caption))
  }

  function OptionNodes(items: seq<Item>): seq<Node> {
    seq(|items|, i requires 0 <= i < |items| => OptionNode(items[i]))
  }

  function Placeholder(def: FieldDef): Item {
    Item("--Select " + def.caption + "--", "")
  }

  /** A select whose options read: the placeholder, then one option per supplied value, in order. */
  function SelectNode(def: FieldDef): (r: Node)
    ensures r.Element? && r.tag == "select" && r.attrs == map["name" := def.key]
    ensures |r.children| == 1 + |Values(def)|
    ensures r.children[0].Element? && r.children[0].attrs == map["value" := ""]
    ensures OwnText(r.children[0].children) == "--Select " + def.caption + "--"
    ensures forall i :: 0 <= i < |Values(def)| ==>
      && r.children[i + 1].Element? && r.children[i + 1].tag == "option"
      && r.children[i + 1].attrs == map["value" := Values(def)[i].value]
      && OwnText(r.children[i + 1].children) == Values(def)[i].caption
  {
    var options := OptionNodes(Values(def));
    var r := Element("select", map["name" := def.key], {}, [OptionNode(Placeholder(def))] + options);
    TextContentRoundTrip(Placeholder(def).caption);
    assert forall i :: 0 <= i < |Values(def)| ==> r.children[i + 1] == options[i];
    assert forall i :: 0 <= i < |Values(def)| ==> OwnText(options[i].children) == Values(def)[i].caption by {
      forall i | 0 <= i < |Values(def)| {
        TextContentRoundTrip(Values(def)[i].caption);
      }
    }
    r
  }

  /** The `id` of the radio input at `index`: `${key}-${index}`. */
  function RadioId(key: string, index: nat): string {
    key + "-" + NatToString(index)
  }

  function RadioInput(def: FieldDef, attributes: seq<Attr>, item: Item, index: nat): Node {
    Element("input",
      Assign(
        Assign(map["id" := RadioId(def.key, index), "name" := def.key, "value" := item.value, "type" := "radio"],
          attributes),
        RuleAttrs(def.validations)),
      ClassAfter(ClassAfter({}, attributes), RuleAttrs(def.validations)), [])
  }

  function RadioLabel(def: FieldDef, item: Item, index: nat): Node {
    Element("label", map["for" := RadioId(def.key, index)], {}, TextContent(item.caption))
  }

  /** For each option in turn, its radio input followed by its label. */
  function RadioOptions(def: FieldDef, attributes: seq<Attr>, items: seq<Item>): seq<Node> {
    if items == [] then []
    else
      var n := |items| - 1;
      RadioOptions(def, attributes, items[..n]) + [RadioInput(def, attributes, items[n], n), RadioLabel(def, items[n], n)]
  }

  lemma RadioOptionsExtend(def: FieldDef, attributes: seq<Attr>, items: seq<Item>, index: nat)
    requires index < |items|
    ensures RadioOptions(def, attributes, items[..index + 1]) == RadioOptions(def, attributes, items[..index])
      + [RadioInput(def, attributes, items[index], index), RadioLabel(def, items[index], index)]
  {
    var prefix := items[..index + 1];
    assert prefix[..index] == items[..index];
    assert prefix[index] == items[index];
  }

  function RadioGroup(def: FieldDef, attributes: seq<Attr>): Node {
    Element("div", map[], {"radio-group"},
      [Element("label", map[], {}, TextContent(def.caption))] + RadioOptions(def, attributes, Values(def)))
  }

  /** A button whose `type` attribute is the field's key. */
  function ButtonNode(def: FieldDef): Node {
    Element("button", map["name" := def.key, "type" := def.key], {}, TextContent(def.caption))
  }

  function CustomItem(option: Item, selected: Option<string>): Node {
    Element("div", map["data-value" := option.value],
      {"select-item"} + (if selected == Some(option.value) then {"active"} else {}),
      TextContent(option.caption))
  }

  /**
   * `createCustomOptions`: one item per option, in order, each carrying its value,
   * and marked active exactly when its value is the selected one.
   */
  function CustomOptions(options: seq<Item>, selected: Option<string>): (r: Node)
    ensures r.Element? && r.classes == {"select-items"} && |r.children| == |options|
    ensures forall i :: 0 <= i < |options| ==>
      && r.children[i].Element? && r.children[i].attrs == map["data-value" := options[i].value]
      && "select-item" in r.children[i].classes
      && ("active" in r.children[i].classes <==> selected == Some(options[i].value))
  {
    Element("div", map[], {"select-items"},
      seq(|options|, i requires 0 <= i < |options| => CustomItem(options[i], selected)))
  }

  function SearchInput(): Node {
    Element("input", map["type" := "text", "placeholder" := "Search..."], {"select-search"}, [])
  }

  /** The hidden input of a custom select: the field's hidden input carrying its rules. */
  function CustomSelectValue(def: FieldDef): Node {
    var hidden := HiddenNode(def);
    hidden.(attrs := Assign(hidden.attrs, RuleAttrs(def.validations)),
      classes := ClassAfter(hidden.classes, RuleAttrs(def.validations)))
  }

  function CustomSelectNode(def: FieldDef): Node {
    Element("div", map[], {"custom-select"}, [
      CustomSelectValue(def),
      Element("div", map[], {"select-selected"}, TextContent(def.caption)),
      Element("div", map[], {"select-items-content"},
        [SearchInput()] + (if def.values.Some? then [CustomOptions(def.values.value, None)] else []))
    ])
  }

  /** The element the switch of `createFormElement` builds for a known type other than `hidden`. */
  function FieldControl(def: FieldDef, uniqueId: string): Node
    requires def.fieldType in FieldTypes - {"hidden"}
  {
    match def.fieldType
    case "text" => InputNode(def, [("placeholder", def.caption)])
    case "number" => InputNode(def, [("placeholder", def.caption)])
    case "textarea" => TextAreaNode(def, [("placeholder", def.caption)])
    case "checkbox" => CheckboxNode(def, [("name", def.key)], uniqueId)
    case "radio" => RadioGroup(def, [("name", def.key)])
    case "select" => SelectNode(def)
    case "custom-select" => CustomSelectNode(def)
    case "button" => ButtonNode(def)
  }

  function FieldContainer(element: Node): Node {
    Element("div", map[], {"form-field"}, [element])
  }

  /**
   * `createFormElement`: nothing for an unknown type, the bare hidden input for
   * `hidden`, and otherwise one `form-field` container whose only child is the control.
   */
  function FormElement(def: FieldDef, uniqueId: string): (r: Option<Node>)
    ensures r.None? <==> def.fieldType !in FieldTypes
    ensures def.fieldType == "hidden" ==>
      r == Some(HiddenNode(def)) && r.value.attrs["value"] == DefaultValue(def) && !HasClass(r.value, "form-field")
    ensures r.Some? && def.fieldType != "hidden" ==>
      && HasClass(r.value, "form-field") && r.value.tag == "div"
      && r.value.children == [FieldControl(def, uniqueId)]
  {
    if def.fieldType !in FieldTypes then None
    else if def.fieldType == "hidden" then Some(HiddenNode(def))
    else Some(FieldContainer(FieldControl(def, uniqueId)))
  }

  // ---------------------------------------------------------------------------
  // What the subtrees promise

  /**
   * A rule that no later rule with the same key, up to ASCII case, overrides decides a text or
   * number input: as the attribute named by its lower-cased key, or, for a key `class`, as its
   * class list.
   */
  lemma {:induction false} RuleBecomesAttribute(def: FieldDef, attributes: seq<Attr>, i: nat)
    requires def.validations.Some? && i < |def.validations.value|
    requires forall j :: i < j < |def.validations.value| ==>
      ToLowerCase(def.validations.value[j].key) != ToLowerCase(def.validations.value[i].key)
    ensures var key := ToLowerCase(def.validations.value[i].key);
      key != "class" ==>
        key in InputNode(def, attributes).attrs
        && InputNode(def, attributes).attrs[key] == def.validations.value[i].value
    ensures ToLowerCase(def.validations.value[i].key) == "class" ==>
      InputNode(def, attributes).classes == Tokens(def.validations.value[i].value)
  {
    var pairs := RuleAttrs(def.validations);
    AssignLastWins(Assign(map["name" := def.key, "type" := def.fieldType], attributes),
      ClassAfter({}, attributes), pairs, i);
  }

  /** Radio option `i` is the input at position `2 i` and its label right after it. */
  lemma {:induction false} RadioOptionsAt(def: FieldDef, attributes: seq<Attr>, items: seq<Item>, i: nat)
    requires i < |items|
    ensures |RadioOptions(def, attributes, items)| == 2 * |items|
    ensures RadioOptions(def, attributes, items)[2 * i] == RadioInput(def, attributes, items[i], i)
    ensures RadioOptions(def, attributes, items)[2 * i + 1] == RadioLabel(def, items[i], i)
  {
    var n := |items| - 1;
    var prefix := RadioOptions(def, attributes, items[..n]);
    var pair := [RadioInput(def, attributes, items[n], n), RadioLabel(def, items[n], n)];
    assert RadioOptions(def, attributes, items) == prefix + pair;
    RadioOptionsLength(def, attributes, items[..n]);
    if i < n {
      RadioOptionsAt(def, attributes, items[..n], i);
      assert items[..n][i] == items[i];
      assert (prefix + pair)[2 * i] == prefix[2 * i] && (prefix + pair)[2 * i + 1] == prefix[2 * i + 1];
    } else {
      assert (prefix + pair)[2 * i] == pair[0] && (prefix + pair)[2 * i + 1] == pair[1];
    }
  }

  lemma {:induction false} RadioOptionsLength(def: FieldDef, attributes: seq<Attr>, items: seq<Item>)
    ensures |RadioOptions(def, attributes, items)| == 2 * |items|
  {
    if items != [] {
      RadioOptionsLength(def, attributes, items[..|items| - 1]);
    }
  }

  lemma RadioInputId(def: FieldDef, attributes: seq<Attr>, item: Item, index: nat)
    requires "id" !in Names(attributes) && "id" !in Names(RuleAttrs(def.validations))
    ensures "id" in RadioInput(def, attributes, item, index).attrs
    ensures RadioInput(def, attributes, item, index).attrs["id"] == RadioId(def.key, index)
  {
    var base := map["id" := RadioId(def.key, index), "name" := def.key, "value" := item.value, "type" := "radio"];
    AssignKeeps(base, attributes, "id");
    AssignKeeps(Assign(base, attributes), RuleAttrs(def.validations), "id");
  }

  /**
   * Unless a rule or an attribute named `id` overrides it, every radio input of a group
   * has its own id, and the label after it points at it.
   */
  lemma RadioIdsDistinct(def: FieldDef, attributes: seq<Attr>, i: nat, j: nat)
    requires i < j < |Values(def)|
    requires "id" !in Names(attributes) && "id" !in Names(RuleAttrs(def.validations))
    ensures var items := Values(def);
      && "id" in RadioInput(def, attributes, items[i], i).attrs
      && "id" in RadioInput(def, attributes, items[j], j).attrs
      && RadioInput(def, attributes, items[i], i).attrs["id"] != RadioInput(def, attributes, items[j], j).attrs["id"]
      && RadioLabel(def, items[i], i).attrs["for"] == RadioInput(def, attributes, items[i], i).attrs["id"]
  {
    var items := Values(def);
    RadioInputId(def, attributes, items[i], i);
    RadioInputId(def, attributes, items[j], j);
    if RadioId(def.key, i) == RadioId(def.key, j) {
      var prefix := |def.key| + 1;
      assert RadioId(def.key, i)[prefix..] == NatToString(i);
      assert RadioId(def.key, j)[prefix..] == NatToString(j);
      NatToStringInjective(i, j);
    }
  }

  /** The select example: options `[{A, a}]` under label `L` read `--Select L--` then `A`. */
  lemma SelectExample()
    ensures var r := SelectNode(FieldDef("pick", "L", "select", None, Some([Item("A", "a")]), None));
      && |r.children| == 2
      && OwnText(r.children[0].children) == "--Select L--"
      && OwnText(r.children[1].children) == "A" && r.children[1].attrs["value"] == "a"
  {
  }

  // ---------------------------------------------------------------------------
  // The builders, step by step

  /** The attribute names the builders spell out are already in lower case, so `setAttribute` stores them as written. */
  lemma LiteralNames()
    ensures ToLowerCase("name") == "name" && ToLowerCase("type") == "type" && ToLowerCase("id") == "id"
    ensures ToLowerCase("value") == "value" && ToLowerCase("for") == "for" && ToLowerCase("data-value") == "data-value"
    ensures ToLowerCase("placeholder") == "placeholder" && ToLowerCase("novalidate") == "novalidate"
  {
    LowerCaseKeeps("name");
    LowerCaseKeeps("type");
    LowerCaseKeeps("id");
    LowerCaseKeeps("value");
    LowerCaseKeeps("for");
    LowerCaseKeeps("data-value");
    LowerCaseKeeps("placeholder");
    LowerCaseKeeps("novalidate");
  }

  method SetValidations(input: Node, validations: Option<seq<Rule>>) returns (r: Node)
    requires input.Element?
    ensures r == input.(attrs := Assign(input.attrs, RuleAttrs(validations)),
      classes := ClassAfter(input.classes, RuleAttrs(validations)))
  {
    r := input;
    if validations.Some? && |validations.value| > 0 {
      var rules := validations.value;
      for i := 0 to |rules|
        invariant r == input.(attrs := Assign(input.attrs, RuleAttrs(validations)[..i]),
          classes := ClassAfter(input.classes, RuleAttrs(validations)[..i]))
      {
        assert RuleAttrs(validations)[..i + 1][..i] == RuleAttrs(validations)[..i];
        r := SetAttribute(r, rules[i].key, rules[i].value);
      }
      assert RuleAttrs(validations)[..|rules|] == RuleAttrs(validations);
    }
  }

  method CreateInputElement(def: FieldDef, attributes: seq<Attr>) returns (input: Node)
    ensures input == InputNode(def, attributes)
  {
    LiteralNames();
    input := NewElement("input");
    input := SetAttribute(input, "name", def.key);
    input := SetAttribute(input, "type", def.fieldType);
    input := SetAttributes(input, attributes);
    input := SetValidations(input, def.validations);
  }

  method CreateHiddenElement(def: FieldDef) returns (input: Node)
    ensures input == HiddenNode(def)
  {
    LiteralNames();
    input := NewElement("input");
    input := SetAttribute(input, "name", def.key);
    input := SetAttribute(input, "value", if def.defaultValue.Some? then def.defaultValue.value else "");
    input := SetAttribute(input, "type", "hidden");
  }

  method CreateCheckboxElement(def: FieldDef, attributes: seq<Attr>, uniqueId: string) returns (labelNode: Node)
    ensures labelNode == CheckboxNode(def, attributes, uniqueId)
  {
    LiteralNames();
    var input := NewElement("input");
    input := SetAttribute(input, "name", def.key);
    input := SetAttribute(input, "id", uniqueId);
    input := SetAttribute(input, "type", def.fieldType);
    input := SetAttributes(input, attributes);
    input := SetValidations(input, def.validations);
    labelNode := NewElement("label");
    labelNode := SetAttribute(labelNode, "for", input.attrs["id"]);
    labelNode := AppendChild(labelNode, input);
    labelNode := AppendChild(labelNode, Text(def.caption));
  }

  method CreateTextAreaElement(def: FieldDef, attributes: seq<Attr>) returns (textarea: Node)
    ensures textarea == TextAreaNode(def, attributes)
  {
    LiteralNames();
    textarea := NewElement("textarea");
    textarea := SetAttribute(textarea, "name", def.key);
    textarea := SetAttributes(textarea, attributes);
    textarea := SetValidations(textarea, def.validations);
  }

  method SetOption(select: Node, item: Item) returns (r: Node)
    requires select.Element?
    ensures r == select.(children := select.children + [OptionNode(item)])
  {
    LiteralNames();
    var option := NewElement("option");
    option := SetAttribute(option, "value", item.value);
    option := SetTextContent(option, item.caption);
    r := AppendChild(select, option);
  }

  method CreateSelectElement(def: FieldDef) returns (select: Node)
    ensures select == SelectNode(def)
  {
    LiteralNames();
    select := NewElement("select");
    select := SetAttribute(select, "name", def.key);
    select := SetOption(select, Placeholder(def));
    var items := Values(def);
    for i := 0 to |items|
      invariant select == Element("select", map["name" := def.key], {},
        [OptionNode(Placeholder(def))] + OptionNodes(items[..i]))
    {
      assert OptionNodes(items[..i + 1]) == OptionNodes(items[..i]) + [OptionNode(items[i])];
      select := SetOption(select, items[i]);
    }
    assert items[..|items|] == items;
  }

  /** One iteration of the radio group's `forEach`: the input for `item` at `index`. */
  method CreateRadioInput(def: FieldDef, attributes: seq<Attr>, item: Item, index: nat) returns (input: Node)
    ensures input == RadioInput(def, attributes, item, index)
  {
    LiteralNames();
    input := NewElement("input");
    input := SetAttribute(input, "id", RadioId(def.key, index));
    input := SetAttribute(input, "name", def.key);
    input := SetAttribute(input, "value", item.value);
    input := SetAttribute(input, "type", "radio");
    input := SetAttributes(input, attributes);
    input := SetValidations(input, def.validations);
  }

  method CreateRadioElement(def: FieldDef, attributes: seq<Attr>) returns (group: Node)
    ensures group == RadioGroup(def, attributes)
  {
    LiteralNames();
    group := NewElement("div");
    group := AddClass(group, "radio-group");
    var mainLabel := NewElement("label");
    mainLabel := SetTextContent(mainLabel, def.caption);
    group := AppendChild(group, mainLabel);
    var items := Values(def);
    for index := 0 to |items|
      invariant group.Element? && group.tag == "div" && group.attrs == map[] && group.classes == {"radio-group"}
      invariant group.children == [mainLabel] + RadioOptions(def, attributes, items[..index])
    {
      var input := CreateRadioInput(def, attributes, items[index], index);
      var optionLabel := NewElement("label");
      optionLabel := SetAttribute(optionLabel, "for", RadioId(def.key, index));
      optionLabel := SetTextContent(optionLabel, items[index].caption);
      assert optionLabel == RadioLabel(def, items[index], index);
      RadioOptionsExtend(def, attributes, items, index);
      group := AppendChild(group, input);
      group := AppendChild(group, optionLabel);
    }
    assert items[..|items|] == items;
  }

  method CreateButtonElement(def: FieldDef) returns (button: Node)
    ensures button == ButtonNode(def)
  {
    LiteralNames();
    button := NewElement("button");
    button := SetAttribute(button, "name", def.key);
    button := SetAttribute(button, "type", def.key);
    button := SetTextContent(button, def.caption);
  }

  /** One iteration of `createCustomOptions`' `forEach`. */
  method CreateCustomItem(option: Item, selected: Option<string>) returns (item: Node)
    ensures item == CustomItem(option, selected)
  {
    LiteralNames();
    item := NewElement("div");
    item := AddClass(item, "select-item");
    if selected == Some(option.value) {
      item := AddClass(item, "active");
    }
    item := SetTextContent(item, option.caption);
    item := SetAttribute(item, "data-value", option.value);
  }

  method CreateCustomOptions(options: seq<Item>, selected: Option<string>) returns (list: Node)
    ensures list == CustomOptions(options, selected)
  {
    list := NewElement("div");
    list := AddClass(list, "select-items");
    for i := 0 to |options|
      invariant list == Element("div", map[], {"select-items"},
        seq(i, j requires 0 <= j < i => CustomItem(options[j], selected)))
    {
      var item := CreateCustomItem(options[i], selected);
      assert seq(i + 1, j requires 0 <= j < i + 1 => CustomItem(options[j], selected))
        == seq(i, j requires 0 <= j < i => CustomItem(options[j], selected)) + [item];
      list := AppendChild(list, item);
    }
  }

  method CreateCustomSelect(def: FieldDef) returns (customSelect: Node)
    ensures customSelect == CustomSelectNode(def)
  {
    LiteralNames();
    customSelect := NewElement("div");
    customSelect := AddClass(customSelect, "custom-select");
    var selected := NewElement("div");
    selected := AddClass(selected, "select-selected");
    selected := SetTextContent(selected, def.caption);
    var items := NewElement("div");
    items := AddClass(items, "select-items-content");
    var searchInput := NewElement("input");
    searchInput := SetAttribute(searchInput, "type", "text");
    searchInput := AddClass(searchInput, "select-search");
    searchInput := SetAttribute(searchInput, "placeholder", "Search...");
    items := AppendChild(items, searchInput);
    var hiddenInput := CreateHiddenElement(def);
    hiddenInput := SetValidations(hiddenInput, def.validations);
    customSelect := AppendChild(customSelect, hiddenInput);
    if def.values.Some? {
      var optionItem := CreateCustomOptions(def.values.value, None);
      items := AppendChild(items, optionItem);
    }
    assert searchInput == SearchInput();
    assert hiddenInput == CustomSelectValue(def);
    customSelect := AppendChild(customSelect, selected);
    customSelect := AppendChild(customSelect, items);
    assert selected == Element("div", map[], {"select-selected"}, TextContent(def.caption));
    assert items.classes == {"select-items-content"};
    assert items.attrs == map[];
    assert items.children == [SearchInput()] + (if def.values.Some? then [CustomOptions(def.values.value, None)] else []);
    assert customSelect.children == [hiddenInput, selected, items];
  }

  /** The switch of `createFormElement` for the known types other than `hidden`. */
  method CreateControl(def: FieldDef, uniqueId: string) returns (element: Node)
    requires def.fieldType in FieldTypes - {"hidden"}
    ensures element == FieldControl(def, uniqueId)
  {
    match def.fieldType {
      case "text" =>
        element := CreateInputElement(def, [("placeholder", def.caption)]);
      case "number" =>
        element := CreateInputElement(def, [("placeholder", def.caption)]);
      case "textarea" =>
        element := CreateTextAreaElement(def, [("placeholder", def.caption)]);
      case "checkbox" =>
        element := CreateCheckboxElement(def, [("name", def.key)], uniqueId);
      case "radio" =>
        element := CreateRadioElement(def, [("name", def.key)]);
      case "select" =>
        element := CreateSelectElement(def);
      case "custom-select" =>
        element := CreateCustomSelect(def);
      case "button" =>
        element := CreateButtonElement(def);
    }
  }

  method CreateFormElement(def: FieldDef, uniqueId: string) returns (r: Option<Node>)
    ensures r == FormElement(def, uniqueId)
  {
    if def.fieldType !in FieldTypes {
      return None;
    }
    if def.fieldType == "hidden" {
      var hidden := CreateHiddenElement(def);
      return Some(hidden);
    }
    var element := CreateControl(def, uniqueId);
    var container := NewElement("div");
    container := AddClass(container, "form-field");
    container := AppendChild(container, element);
    assert container == FieldContainer(element);
    return Some(container);
  }
}
