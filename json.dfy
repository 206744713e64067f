/**
 * JSON document nodes (JsonNode and its subclasses), their typed accessors,
 * the list and object containers, and the textual formatter
 * (JsonFormatter::FormatString, DefaultJsonFormatter).
 *
 * A JsonNodePtr that may be empty is a `Ptr`.  An object's std::map is kept
 * as its entries in ascending key order (the map's iteration order).
 */
module Json {
  import opened CText
  import opened SortedMap

  /** JsonNodeType */
  datatype NodeType = JntNull | JntBool | JntInt | JntDouble | JntString | JntList | JntObject

  /**
   * A node.  NullNode is a plain JsonNode (type JNT_NULL); a double keeps
   * the literal it was read from.
   */
  datatype Node =
    | NullNode
    | BoolNode(b: bool)
    | IntNode(i: Int32)
    | DoubleNode(literal: string)
    | StringNode(s: string)
    | ListNode(items: seq<Ptr>)
    | ObjectNode(entries: seq<(string, Ptr)>)

  /** A JsonNodePtr: None is the empty pointer. */
  type Ptr = Option<Node>

  /** JsonNode::Type and its overrides. */
  function TypeOf(n: Node): (t: NodeType)
    ensures t == JntList <==> n.ListNode?
    ensures t == JntObject <==> n.ObjectNode?
  {
    match n
    case NullNode => JntNull
    case BoolNode(_) => JntBool
    case IntNode(_) => JntInt
    case DoubleNode(_) => JntDouble
    case StringNode(_) => JntString
    case ListNode(_) => JntList
    case ObjectNode(_) => JntObject
  }

  // ---------------------------------------------------------------------
  // Typed accessors

  /** JsonNode::ValueToBool */
  function ValueToBool(node: Ptr, valOnInvalid: bool): (r: bool)
  {
    match node
    case None => valOnInvalid
    case Some(StringNode(s)) => if s == "true" then true else if s == "false" then false else valOnInvalid
    case Some(BoolNode(b)) => b
    case Some(_) => valOnInvalid
  }

  /** JsonNode::ValueToInt: a string is read with atoi. */
  function ValueToInt(node: Ptr, valOnInvalid: Int32): (r: Int32)
  {
    match node
    case None => valOnInvalid
    case Some(StringNode(s)) => Atoi(s)
    case Some(IntNode(i)) => i
    case Some(_) => valOnInvalid
  }

  /** JsonNode::Get<std::string>: the string of a string node, else the fallback. */
  function ValueToString(node: Ptr, valOnInvalid: string): (r: string)
  {
    match node
    case Some(StringNode(s)) => s
    case _ => valOnInvalid
  }

  /** The text "true" or "false" of a bool, as the formatter prints it. */
  function BoolText(b: bool): (r: string)
  {
    if b then "true" else "false"
  }

  /**
   * ValueToBool reads back a bool node and the formatter's text of a bool,
   * and gives the fallback for every other string.
   */
  lemma {:induction false} ValueToBoolReadsBack(b: bool, s: string, fallback: bool)
    ensures ValueToBool(Some(BoolNode(b)), fallback) == b
    ensures ValueToBool(Some(StringNode(BoolText(b))), fallback) == b
    ensures s != "true" && s != "false" ==> ValueToBool(Some(StringNode(s)), fallback) == fallback
    ensures ValueToBool(None, fallback) == fallback
  {
  }

  /** ValueToInt reads back an int node and the decimal text of an int. */
  lemma {:induction false} ValueToIntReadsBack(i: Int32, fallback: Int32)
    ensures ValueToInt(Some(IntNode(i)), fallback) == i
    ensures ValueToInt(Some(StringNode(IntToDecimal(i))), fallback) == i
    ensures ValueToInt(None, fallback) == fallback
  {
    AtoiOfDecimal(i);
  }

  // ---------------------------------------------------------------------
  // JsonListNode

  /** JsonListNode::Add: appends when index < 0, otherwise inserts before position index. */
  function ListAdd(items: seq<Ptr>, child: Ptr, index: int): (r: seq<Ptr>)
    requires index <= |items|
    ensures |r| == |items| + 1
    ensures var p := if index < 0 then |items| else index;
      r[p] == child &&
      (forall k :: 0 <= k < p ==> r[k] == items[k]) &&
      (forall k :: p < k < |r| ==> r[k] == items[k - 1])
  {
    if index < 0 then items + [child] else items[..index] + [child] + items[index..]
  }

  /** JsonNode::Add and JsonListNode::Add: only a list takes a child, and the result says whether it did. */
  function NodeAdd(n: Node, child: Ptr, index: int): (r: (Node, bool))
    requires n.ListNode? ==> index <= |n.items|
    ensures r.1 <==> n.ListNode?
    ensures !r.1 ==> r.0 == n
    ensures r.1 ==> r.0 == ListNode(ListAdd(n.items, child, index))
  {
    if n.ListNode? then (ListNode(ListAdd(n.items, child, index)), true) else (n, false)
  }

  /** JsonNode::Get(unsigned) and JsonListNode::Get: the item of a list, the empty pointer for other nodes. */
  function GetIndex(n: Node, index: nat): (r: Ptr)
    requires n.ListNode? ==> index < |n.items|
    ensures n.ListNode? ==> r == n.items[index]
    ensures !n.ListNode? ==> r.None?
  {
    if n.ListNode? then n.items[index] else None
  }

  /** JsonNode::Size and its overrides. */
  function Size(n: Node): (r: nat)
    ensures n.ListNode? ==> r == |n.items|
    ensures n.ObjectNode? ==> r == |n.entries|
    ensures !n.ListNode? && !n.ObjectNode? ==> r == 0
  {
    match n
    case ListNode(items) => |items|
    case ObjectNode(entries) => |entries|
    case _ => 0
  }

  /** JsonNode::IsEmpty and its overrides: a scalar node counts as empty. */
  function IsEmpty(n: Node): (r: bool)
    ensures r <==> Size(n) == 0
  {
    match n
    case ListNode(items) => items == []
    case ObjectNode(entries) => entries == []
    case _ => true
  }

  /** JsonNode::Clear and its overrides: containers lose their children, scalars stay. */
  function Clear(n: Node): (r: Node)
    ensures Size(r) == 0 && TypeOf(r) == TypeOf(n)
    ensures !n.ListNode? && !n.ObjectNode? ==> r == n
  {
    match n
    case ListNode(_) => ListNode([])
    case ObjectNode(_) => ObjectNode([])
    case _ => n
  }

  // ---------------------------------------------------------------------
  // JsonObjectNode: a std::map<std::string, JsonNodePtr>

  /**
   * JsonNode::Set and JsonObjectNode::Set: only an object takes a named
   * child; afterwards Get(name) is the child and no other key changes.
   */
  function NodeSet(n: Node, name: string, child: Ptr): (r: (Node, bool))
    requires n.ObjectNode? ==> Ordered(n.entries)
    ensures r.1 <==> n.ObjectNode?
    ensures !r.1 ==> r.0 == n
    ensures r.1 ==> (r.0.ObjectNode? && Ordered(r.0.entries) &&
      GetName(r.0, name) == child && Contains(r.0, name) &&
      (forall k :: k != name ==> GetName(r.0, k) == GetName(n, k) && (Contains(r.0, k) <==> Contains(n, k))))
  {
    if n.ObjectNode? then (ObjectNode(Insert(n.entries, name, child)), true) else (n, false)
  }

  /** JsonNode::Get(name) and JsonObjectNode::Get: the child under name, the empty pointer when absent or not an object. */
  function GetName(n: Node, name: string): (r: Ptr)
    ensures !n.ObjectNode? ==> r.None?
  {
    if n.ObjectNode? then match Lookup(n.entries, name) case Some(p) => p case None => None
    else None
  }

  /** JsonNode::Contains and JsonObjectNode::Contains. */
  function Contains(n: Node, name: string): (r: bool)
    ensures r <==> n.ObjectNode? && name in Keys(n.entries)
  {
    n.ObjectNode? && Lookup(n.entries, name).Some?
  }

  // ---------------------------------------------------------------------
  // DefaultJsonFormatter

  /** The escape FormatString writes for one character. */
  function EscapeChar(c: char): (r: string)
  {
    if c == '"' then "\\\""
    else if c == '/' then "\\/"
    else if c == '\\' then "\\\\"
    else if c == 8 as char then "\\b"
    else if c == 12 as char then "\\f"
    else if c == '\n' then "\\n"
    else if c == '\r' then "\\r"
    else if c == 11 as char then "\\v"
    else if c == '\t' then "\\t"
    else [c]
  }

  /** The characters that FormatString writes as a backslash escape. */
  predicate IsEscaped(c: char) {
    |EscapeChar(c)| == 2
  }

  function EscapeAll(s: string): (r: string)
  {
    if s == [] then [] else EscapeChar(s[0]) + EscapeAll(s[1..])
  }

  /** JsonFormatter::FormatString */
  function FormatString(s: string): (r: string)
    ensures |r| >= 2 && r[0] == '"' && r[|r| - 1] == '"'
  {
    "\"" + EscapeAll(s) + "\""
  }

  /** A string with no character FormatString escapes is copied unchanged between the quotes. */
  lemma {:induction false} EscapeAllPlain(s: string)
    requires forall k :: 0 <= k < |s| ==> !IsEscaped(s[k])
    ensures EscapeAll(s) == s
  {
    if s != [] {
      assert !IsEscaped(s[0]);
      assert forall k :: 0 <= k < |s[1..]| ==> s[1..][k] == s[k + 1];
      EscapeAllPlain(s[1..]);
    }
  }

  /** Escaping works character by character. */
  lemma {:induction false} EscapeAllAppend(a: string, b: string)
    ensures EscapeAll(a + b) == EscapeAll(a) + EscapeAll(b)
  {
    if a != [] {
      assert (a + b)[1..] == a[1..] + b;
      EscapeAllAppend(a[1..], b);
    } else {
      assert a + b == b;
    }
  }

  /** The line end std::endl writes when appendNewline is set. */
  function LineEnd(appendNewline: bool): (r: string)
  {
    if appendNewline then "\n" else ""
  }

  /** DefaultJsonFormatter::FormatExt */
  function FormatExt(node: Ptr, appendNewline: bool): (r: string)
    decreases node, 1
  {
    match node
    case None => "null" + LineEnd(appendNewline)
    case Some(n) => FormatNode(n, appendNewline) + LineEnd(appendNewline)
  }

  /** The text FormatExt writes for a node before its optional line end. */
  function FormatNode(n: Node, appendNewline: bool): (r: string)
    decreases n, 0
  {
    match n
    case NullNode => "null"
    case BoolNode(b) => BoolText(b)
    case IntNode(i) => IntToDecimal(i)
    case DoubleNode(lit) => lit
    case StringNode(s) => FormatString(s)
    case ListNode(items) => "[ " + FormatItems(items, appendNewline) + " ]"
    case ObjectNode(entries) => "{ " + FormatEntries(entries, appendNewline) + " }"
  }

  /** List items separated by ", ". */
  function FormatItems(items: seq<Ptr>, appendNewline: bool): (r: string)
    decreases items, 2
  {
    if items == [] then []
    else
      var last := |items| - 1;
      (if last == 0 then [] else FormatItems(items[..last], appendNewline) + ", ") + FormatExt(items[last], appendNewline)
  }

  /** Object entries as `"key": value`, in key order, separated by ", ". */
  function FormatEntries(entries: seq<(string, Ptr)>, appendNewline: bool): (r: string)
    decreases entries, 2
  {
    if entries == [] then []
    else
      var last := |entries| - 1;
      var entry := entries[last];
      assert entry in entries && entry.1 < entry;
      (if last == 0 then [] else FormatEntries(entries[..last], appendNewline) + ", ") +
      FormatString(entry.0) + ": " + FormatExt(entry.1, appendNewline)
  }

  /** DefaultJsonFormatter::Format: FormatExt without line ends, then exactly one line end. */
  function Format(node: Ptr): (r: string)
    ensures |r| >= 1 && r[|r| - 1] == '\n'
    ensures r[..|r| - 1] == FormatExt(node, false)
  {
    FormatExt(node, false) + "\n"
  }

  /** The list and object shapes: brackets around the children joined by ", ". */
  lemma {:induction false} FormatContainers(items: seq<Ptr>, entries: seq<(string, Ptr)>, x: Ptr, name: string, v: Ptr)
    ensures FormatNode(ListNode([]), false) == "[  ]"
    ensures FormatNode(ObjectNode([]), false) == "{  }"
    ensures FormatItems(items + [x], false) == (if items == [] then [] else FormatItems(items, false) + ", ") + FormatExt(x, false)
    ensures FormatEntries(entries + [(name, v)], false) ==
      (if entries == [] then [] else FormatEntries(entries, false) + ", ") + FormatString(name) + ": " + FormatExt(v, false)
  {
    assert (items + [x])[..|items|] == items;
    assert (entries + [(name, v)])[..|entries|] == entries;
  }
}
