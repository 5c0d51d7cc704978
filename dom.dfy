/**
 * An abstract document tree. The builders of the form library only ever
 * touch elements they have just created, and append a child only once it
 * is complete, so a node is modelled as a value: `setAttribute`,
 * `classList.add`, `appendChild` and the `textContent` setter return the
 * updated node.
 */
module Dom {
  import opened JsString

  /** An attribute name and its value, as handed to `setAttribute`. */
  type Attr = (string, string)

  datatype Node =
    | Element(tag: string, attrs: map<string, string>, classes: set<string>, children: seq<Node>)
    | Text(data: string)

  /** `document.createElement(tag)`. */
  function NewElement(tag: string): Node {
    Element(tag, map[], {}, [])
  }

  /** The children left by assigning `textContent`: no text node at all for the empty string. */
  function TextContent(s: string): seq<Node> {
    if s == "" then [] else [Text(s)]
  }

  /** The text of an element whose children are text nodes (the `textContent` getter on such an element). */
  function OwnText(children: seq<Node>): string {
    if children == [] then ""
    else (if children[0].Text? then children[0].data else "") + OwnText(children[1..])
  }

  lemma TextContentRoundTrip(s: string)
    ensures OwnText(TextContent(s)) == s
  {
  }

  predicate HasClass(n: Node, c: string) {
    n.Element? && c in n.classes
  }

  /** ASCII white space, which separates the tokens of a class attribute. */
  predicate IsAsciiSpace(c: char) {
    c == ' ' || c == '\t' || c == '\n' || c == '\U{000C}' || c == '\r'
  }

  /** `s[i..j]` is one maximal run of non-space characters of `s`. */
  predicate TokenAt(s: string, i: nat, j: nat) {
    && i < j <= |s|
    && (i == 0 || IsAsciiSpace(s[i - 1]))
    && (j == |s| || IsAsciiSpace(s[j]))
    && forall k :: i <= k < j ==> !IsAsciiSpace(s[k])
  }

  /** The class list a `class` attribute holding `s` stands for: its space-separated tokens. */
  function Tokens(s: string): set<string> {
    set i: nat, j: nat | i < j <= |s| && TokenAt(s, i, j) :: s[i..j]
  }

  /** A word with no space in it is a class list of that one class. */
  lemma TokensOfWord(s: string)
    requires s != [] && forall k :: 0 <= k < |s| ==> !IsAsciiSpace(s[k])
    ensures Tokens(s) == {s}
  {
    assert TokenAt(s, 0, |s|) && s[0..|s|] == s;
    forall t | t in Tokens(s)
      ensures t == s
    {
      var i: nat, j: nat :| i < j <= |s| && TokenAt(s, i, j) && t == s[i..j];
      assert i == 0 && j == |s|;
    }
  }

  /**
   * `setAttribute` on an element of an HTML document: the name is stored in ASCII lower
   * case, and the `class` attribute is the element's class list, which it replaces.
   */
  function SetAttribute(n: Node, name: string, value: string): Node
    requires n.Element?
  {
    var key := ToLowerCase(name);
    if key == "class" then n.(classes := Tokens(value))
    else n.(attrs := n.attrs[key := value])
  }

  function AddClass(n: Node, c: string): Node
    requires n.Element?
  {
    n.(classes := n.classes + {c})
  }

  function AppendChild(n: Node, child: Node): Node
    requires n.Element?
  {
    n.(children := n.children + [child])
  }

  function SetTextContent(n: Node, s: string): Node
    requires n.Element?
  {
    n.(children := TextContent(s))
  }

  /** The attribute names a sequence of `setAttribute` calls touches, as stored (lower-cased). */
  function Names(pairs: seq<Attr>): set<string> {
    set i | 0 <= i < |pairs| :: ToLowerCase(pairs[i].0)
  }

  /**
   * The attribute map after calling `setAttribute` once per pair, in order, on an element
   * whose attributes were `m`; a pair naming `class` sets the class list instead.
   */
  function Assign(m: map<string, string>, pairs: seq<Attr>): (r: map<string, string>)
    ensures r.Keys == m.Keys + (Names(pairs) - {"class"})
  {
    if pairs == [] then m
    else
      var last := pairs[|pairs| - 1];
      assert Names(pairs) == Names(pairs[..|pairs| - 1]) + {ToLowerCase(last.0)} by {
        assert forall i :: 0 <= i < |pairs| - 1 ==> pairs[..|pairs| - 1][i] == pairs[i];
      }
      var before := Assign(m, pairs[..|pairs| - 1]);
      if ToLowerCase(last.0) == "class" then before else before[ToLowerCase(last.0) := last.1]
  }

  /** The class list after the same calls, on an element whose class list was `classes`. */
  function ClassAfter(classes: set<string>, pairs: seq<Attr>): set<string> {
    if pairs == [] then classes
    else
      var last := pairs[|pairs| - 1];
      if ToLowerCase(last.0) == "class" then Tokens(last.1) else ClassAfter(classes, pairs[..|pairs| - 1])
  }

  /**
   * The last write to a name wins; names that differ only in ASCII case are the same
   * attribute, and the last write to `class` decides the class list.
   */
  lemma {:induction false} AssignLastWins(m: map<string, string>, classes: set<string>, pairs: seq<Attr>, i: nat)
    requires i < |pairs|
    requires forall j :: i < j < |pairs| ==> ToLowerCase(pairs[j].0) != ToLowerCase(pairs[i].0)
    ensures ToLowerCase(pairs[i].0) != "class" ==>
      ToLowerCase(pairs[i].0) in Assign(m, pairs) && Assign(m, pairs)[ToLowerCase(pairs[i].0)] == pairs[i].1
    ensures ToLowerCase(pairs[i].0) == "class" ==> ClassAfter(classes, pairs) == Tokens(pairs[i].1)
  {
    if i < |pairs| - 1 {
      var init := pairs[..|pairs| - 1];
      assert init[i] == pairs[i];
      AssignLastWins(m, classes, init, i);
    }
  }

  /** A name no call touches, in any letter case, keeps its value. */
  lemma {:induction false} AssignKeeps(m: map<string, string>, pairs: seq<Attr>, name: string)
    requires name in m && name !in Names(pairs)
    ensures name in Assign(m, pairs) && Assign(m, pairs)[name] == m[name]
  {
    if pairs != [] {
      var init := pairs[..|pairs| - 1];
      assert Names(init) <= Names(pairs) by {
        assert forall i :: 0 <= i < |init| ==> init[i] == pairs[i];
      }
      assert ToLowerCase(pairs[|pairs| - 1].0) in Names(pairs);
      AssignKeeps(m, init, name);
    }
  }

  /** Calls that never name `class`, in any letter case, keep the class list. */
  lemma {:induction false} ClassAfterKeeps(classes: set<string>, pairs: seq<Attr>)
    requires "class" !in Names(pairs)
    ensures ClassAfter(classes, pairs) == classes
  {
    if pairs != [] {
      var init := pairs[..|pairs| - 1];
      assert Names(init) <= Names(pairs) by {
        assert forall i :: 0 <= i < |init| ==> init[i] == pairs[i];
      }
      assert ToLowerCase(pairs[|pairs| - 1].0) in Names(pairs);
      ClassAfterKeeps(classes, init);
    }
  }

  /** The `for (const key in attributes) el.setAttribute(key, attributes[key])` loop of the builders. */
  method SetAttributes(el: Node, pairs: seq<Attr>) returns (r: Node)
    requires el.Element?
    ensures r == el.(attrs := Assign(el.attrs, pairs), classes := ClassAfter(el.classes, pairs))
  {
    r := el;
    for i := 0 to |pairs|
      invariant r == el.(attrs := Assign(el.attrs, pairs[..i]), classes := ClassAfter(el.classes, pairs[..i]))
    {
      assert pairs[..i + 1][..i] == pairs[..i];
      r := SetAttribute(r, pairs[i].0, pairs[i].1);
    }
    assert pairs[..|pairs|] == pairs;
  }
}
