/**
 * The two updates the form library makes to nodes already on the page:
 * `toggleErrorMessage`, which keeps at most one error node in a field's
 * container, and the option filter of the custom select's search box
 * (`handleItemSearch`).
 */
module Display {
  import opened Wrappers
  import opened JsString
  import opened Dom
  import opened Factory

  /** The children left after `querySelector('.' + c)?.remove()` among `children`. */
  function RemoveFirstWithClass(children: seq<Node>, c: string): seq<Node> {
    if children == [] then []
    else if HasClass(children[0], c) then children[1..]
    else [children[0]] + RemoveFirstWithClass(children[1..], c)
  }

  /** How many of `children` carry class `c`. */
  function CountWithClass(children: seq<Node>, c: string): nat {
    if children == [] then 0
    else (if HasClass(children[0], c) then 1 else 0) + CountWithClass(children[1..], c)
  }

  /** `children` without those carrying class `c`, in order. */
  function WithoutClass(children: seq<Node>, c: string): seq<Node> {
    if children == [] then []
    else (if HasClass(children[0], c) then [] else [children[0]]) + WithoutClass(children[1..], c)
  }

  /** Removing the first node of a class removes one of them, if any, and leaves every other node in place. */
  lemma {:induction false} RemoveFirstWithClassEffect(children: seq<Node>, c: string)
    ensures CountWithClass(RemoveFirstWithClass(children, c), c) ==
      if CountWithClass(children, c) == 0 then 0 else CountWithClass(children, c) - 1
    ensures WithoutClass(RemoveFirstWithClass(children, c), c) == WithoutClass(children, c)
    ensures CountWithClass(children, c) == 0 ==> RemoveFirstWithClass(children, c) == children
  {
    if children != [] && !HasClass(children[0], c) {
      var rest := RemoveFirstWithClass(children[1..], c);
      RemoveFirstWithClassEffect(children[1..], c);
      assert ([children[0]] + rest)[1..] == rest;
    }
  }

  lemma {:induction false} CountWithClassAppend(a: seq<Node>, b: seq<Node>, c: string)
    ensures CountWithClass(a + b, c) == CountWithClass(a, c) + CountWithClass(b, c)
  {
    if a == [] {
      assert a + b == b;
    } else {
      assert (a + b)[1..] == a[1..] + b;
      CountWithClassAppend(a[1..], b, c);
    }
  }

  lemma {:induction false} WithoutClassAppend(a: seq<Node>, b: seq<Node>, c: string)
    ensures WithoutClass(a + b, c) == WithoutClass(a, c) + WithoutClass(b, c)
  {
    if a == [] {
      assert a + b == b;
    } else {
      assert (a + b)[1..] == a[1..] + b;
      WithoutClassAppend(a[1..], b, c);
    }
  }

  lemma {:induction false} RemoveFirstSkipsClean(a: seq<Node>, b: seq<Node>, c: string)
    requires CountWithClass(a, c) == 0
    ensures RemoveFirstWithClass(a + b, c) == a + RemoveFirstWithClass(b, c)
  {
    if a == [] {
      assert a + b == b;
    } else {
      assert (a + b)[1..] == a[1..] + b;
      RemoveFirstSkipsClean(a[1..], b, c);
      assert a == [a[0]] + a[1..];
    }
  }

  /** Appending one node adds its class to the count and keeps the others after the earlier ones. */
  lemma ClassCountsAppend(a: seq<Node>, n: Node, c: string)
    ensures CountWithClass(a + [n], c) == CountWithClass(a, c) + (if HasClass(n, c) then 1 else 0)
    ensures WithoutClass(a + [n], c) == WithoutClass(a, c) + (if HasClass(n, c) then [] else [n])
  {
    CountWithClassAppend(a, [n], c);
    WithoutClassAppend(a, [n], c);
    assert [n][1..] == [];
  }

  /** The error node `toggleErrorMessage` appends. */
  function ErrorNode(message: string): Node {
    Element("div", map["style" := "color: #f00;"], {"error"}, TextContent(message))
  }

  /** `errorMessage` is truthy: a non-empty message. */
  predicate Shows(message: Option<string>) {
    message.Some? && message.value != ""
  }

  /** `toggleErrorMessage` on a field's `form-field` container: remove the error node, then append the new one if any. */
  function ToggleErrorMessage(container: Node, message: Option<string>): Node
    requires container.Element?
  {
    var stripped := container.(children := RemoveFirstWithClass(container.children, "error"));
    if Shows(message) then AppendChild(stripped, ErrorNode(message.value)) else stripped
  }

  /**
   * A container never holds more than one error node: after the toggle it holds one, showing
   * the message, exactly when there is a message, and every other child is kept in order.
   */
  lemma SingleErrorNode(container: Node, message: Option<string>)
    requires container.Element? && CountWithClass(container.children, "error") <= 1
    ensures var after := ToggleErrorMessage(container, message).children;
      && CountWithClass(after, "error") == (if Shows(message) then 1 else 0)
      && WithoutClass(after, "error") == WithoutClass(container.children, "error")
      && (Shows(message) ==> after[|after| - 1] == ErrorNode(message.value))
  {
    var stripped := RemoveFirstWithClass(container.children, "error");
    RemoveFirstWithClassEffect(container.children, "error");
    if Shows(message) {
      var e := ErrorNode(message.value);
      ClassCountsAppend(stripped, e, "error");
    }
  }

  /** Showing the same message twice leaves the container as showing it once. */
  lemma ToggleIdempotent(container: Node, message: Option<string>)
    requires container.Element? && CountWithClass(container.children, "error") <= 1
    ensures ToggleErrorMessage(ToggleErrorMessage(container, message), message) == ToggleErrorMessage(container, message)
  {
    var stripped := RemoveFirstWithClass(container.children, "error");
    RemoveFirstWithClassEffect(container.children, "error");
    RemoveFirstWithClassEffect(stripped, "error");
    if Shows(message) {
      var e := ErrorNode(message.value);
      RemoveFirstSkipsClean(stripped, [e], "error");
      assert RemoveFirstWithClass([e], "error") == [];
      assert stripped + [] == stripped;
    }
  }

  // ---------------------------------------------------------------------------
  // The custom select's search

  /** The option's label, lower-cased, contains the lower-cased search text. */
  predicate LabelMatches(option: Item, searchText: string) {
    Includes(ToLowerCase(option.caption), searchText)
  }

  /** `list.filter((i) => i.label.toLowerCase().includes(searchText))`. */
  function FilterByLabel(options: seq<Item>, searchText: string): (r: seq<Item>)
    ensures forall o :: o in r <==> o in options && LabelMatches(o, searchText)
    ensures |r| <= |options|
  {
    if options == [] then []
    else (if LabelMatches(options[0], searchText) then [options[0]] else []) + FilterByLabel(options[1..], searchText)
  }

  /** The filter keeps the original order: it distributes over concatenation. */
  lemma {:induction false} FilterByLabelAppend(a: seq<Item>, b: seq<Item>, searchText: string)
    ensures FilterByLabel(a + b, searchText) == FilterByLabel(a, searchText) + FilterByLabel(b, searchText)
  {
    if a == [] {
      assert a + b == b;
    } else {
      assert (a + b)[1..] == a[1..] + b;
      FilterByLabelAppend(a[1..], b, searchText);
    }
  }

  /** Filtering by the empty text would keep every option. */
  lemma {:induction false} FilterByEmptyText(options: seq<Item>)
    ensures FilterByLabel(options, "") == options
  {
    if options != [] {
      IncludesEmpty(ToLowerCase(options[0].caption));
      FilterByEmptyText(options[1..]);
    }
  }

  /** The `list` of `handleItemSearch`: the field's options, filtered when the lower-cased search text is not empty. */
  function SearchList(values: Option<seq<Item>>, searchText: string): (r: Option<seq<Item>>)
    ensures r.Some? <==> values.Some?
    ensures ToLowerCase(searchText) == "" ==> r == values
    ensures values.Some? ==> r.value == FilterByLabel(values.value, ToLowerCase(searchText))
  {
    var text := ToLowerCase(searchText);
    if values.Some? && text == "" then FilterByEmptyText(values.value); values
    else if text != "" && values.Some? then Some(FilterByLabel(values.value, text))
    else values
  }

  /**
   * `handleItemSearch` on the custom select's `select-items-content` node: drop the option
   * list, then append the options that match the search, the one whose value is the hidden
   * input's value marked active.
   */
  function ItemSearch(items: Node, values: Option<seq<Item>>, searchText: string, hiddenValue: string): Node
    requires items.Element?
  {
    var stripped := items.(children := RemoveFirstWithClass(items.children, "select-items"));
    match SearchList(values, searchText)
    case None => stripped
    case Some(list) => AppendChild(stripped, CustomOptions(list, Some(hiddenValue)))
  }

  /**
   * After a search the content node holds exactly one option list when the field has options
   * (none otherwise), listing exactly the matching options in their original order, with only
   * the current value active; its other children are kept.
   */
  lemma SearchShowsMatches(items: Node, values: Option<seq<Item>>, searchText: string, hiddenValue: string)
    requires items.Element? && CountWithClass(items.children, "select-items") <= 1
    ensures var after := ItemSearch(items, values, searchText, hiddenValue).children;
      && CountWithClass(after, "select-items") == (if values.Some? then 1 else 0)
      && WithoutClass(after, "select-items") == WithoutClass(items.children, "select-items")
      && (values.Some? ==>
            after[|after| - 1] == CustomOptions(FilterByLabel(values.value, ToLowerCase(searchText)), Some(hiddenValue)))
  {
    var stripped := RemoveFirstWithClass(items.children, "select-items");
    RemoveFirstWithClassEffect(items.children, "select-items");
    if values.Some? {
      var list := CustomOptions(FilterByLabel(values.value, ToLowerCase(searchText)), Some(hiddenValue));
      ClassCountsAppend(stripped, list, "select-items");
    }
  }

  /**
   * The content node a custom select is built with holds one option list when the field
   * has options and none otherwise, so a search may run on it; `SearchShowsMatches` keeps
   * that true search after search.
   */
  lemma {:induction false} CustomSelectSearchable(def: FieldDef)
    ensures var content := CustomSelectNode(def).children[2];
      && content.Element? && HasClass(content, "select-items-content")
      && CountWithClass(content.children, "select-items") == (if def.values.Some? then 1 else 0)
  {
    var content := CustomSelectNode(def).children[2];
    assert !HasClass(SearchInput(), "select-items");
    if def.values.Some? {
      var list := CustomOptions(def.values.value, None);
      assert content.children == [SearchInput(), list];
      assert content.children[1..] == [list] && [list][1..] == [];
      assert HasClass(list, "select-items");
      assert CountWithClass([list], "select-items") == 1 + CountWithClass([], "select-items");
    } else {
      assert content.children == [SearchInput()] && content.children[1..] == [];
    }
    assert CountWithClass(content.children, "select-items") == CountWithClass(content.children[1..], "select-items");
  }
}
