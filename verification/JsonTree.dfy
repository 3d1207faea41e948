/** Trees as the parser builds them in memory: strings and numbers are slices of the data region. */
module JsonTree {
  import opened JsonText
  import opened JsonGrammar

  /** A pointer into the allocation and a size. */
  datatype Slice = Slice(at: nat, size: nat)

  datatype Node =
    | StringNode(text: Slice)
    | NumberNode(lexeme: Slice)
    | ObjectNode(members: seq<MemberNode>)
    | ArrayNode(elements: seq<Node>)
    | TrueNode
    | FalseNode
    | NullNode

  datatype MemberNode = MemberNode(name: Slice, value: Node)

  function Read(mem: Bytes, s: Slice): Bytes {
    if s.at + s.size <= |mem| then mem[s.at..s.at + s.size] else []
  }

  /** The tree a node stands for, given the contents of memory. */
  function Load(mem: Bytes, n: Node): Json
    decreases n
  {
    match n
    case StringNode(s) => String(Read(mem, s))
    case NumberNode(s) => Number(Read(mem, s))
    case ObjectNode(ms) => Object(LoadMembers(mem, ms))
    case ArrayNode(es) => Array(LoadElements(mem, es))
    case TrueNode => True
    case FalseNode => False
    case NullNode => Null
  }

  function LoadMembers(mem: Bytes, ms: seq<MemberNode>): seq<Member>
    decreases ms
  {
    if ms == [] then [] else LoadMembers(mem, ms[..|ms| - 1]) + [LoadMember(mem, ms[|ms| - 1])]
  }

  function LoadMember(mem: Bytes, m: MemberNode): Member
    decreases m
  {
    Member(Read(mem, m.name), Load(mem, m.value))
  }

  function LoadElements(mem: Bytes, es: seq<Node>): seq<Json>
    decreases es
  {
    if es == [] then [] else LoadElements(mem, es[..|es| - 1]) + [Load(mem, es[|es| - 1])]
  }

  /** Every slice of the node lies below `limit`. */
  ghost predicate Below(n: Node, limit: nat)
    decreases n
  {
    match n
    case StringNode(s) => s.at + s.size <= limit
    case NumberNode(s) => s.at + s.size <= limit
    case ObjectNode(ms) => MembersBelow(ms, limit)
    case ArrayNode(es) => ElementsBelow(es, limit)
    case _ => true
  }

  ghost predicate MembersBelow(ms: seq<MemberNode>, limit: nat)
    decreases ms
  {
    ms != [] ==> MembersBelow(ms[..|ms| - 1], limit) && MemberBelow(ms[|ms| - 1], limit)
  }

  ghost predicate MemberBelow(m: MemberNode, limit: nat)
    decreases m
  {
    m.name.at + m.name.size <= limit && Below(m.value, limit)
  }

  ghost predicate ElementsBelow(es: seq<Node>, limit: nat)
    decreases es
  {
    es != [] ==> ElementsBelow(es[..|es| - 1], limit) && Below(es[|es| - 1], limit)
  }

  /** Memory kept up to `limit`. */
  ghost predicate Kept(before: Bytes, after: Bytes, limit: nat) {
    limit <= |before| == |after| && forall i :: 0 <= i < limit ==> before[i] == after[i]
  }

  lemma KeptAcross(a: Bytes, b: Bytes, c: Bytes, limit: nat, limit': nat)
    requires Kept(a, b, limit) && Kept(b, c, limit') && limit <= limit'
    ensures Kept(a, c, limit)
  {
  }

  lemma ReadKept(before: Bytes, after: Bytes, limit: nat, s: Slice)
    requires Kept(before, after, limit) && s.at + s.size <= limit
    ensures Read(before, s) == Read(after, s)
  {
    assert before[s.at..s.at + s.size] == after[s.at..s.at + s.size];
  }

  /** Writes above all slices of a node do not change what it stands for, and raising the limit
      keeps the node below it. */
  lemma {:induction false} LoadKept(before: Bytes, after: Bytes, limit: nat, limit': nat, n: Node)
    requires Kept(before, after, limit) && Below(n, limit) && limit <= limit'
    ensures Load(before, n) == Load(after, n) && Below(n, limit')
    decreases n
  {
    match n
    case StringNode(s) => ReadKept(before, after, limit, s);
    case NumberNode(s) => ReadKept(before, after, limit, s);
    case ObjectNode(ms) => MembersKept(before, after, limit, limit', ms);
    case ArrayNode(es) => ElementsKept(before, after, limit, limit', es);
    case _ =>
  }

  lemma {:induction false} MembersKept(before: Bytes, after: Bytes, limit: nat, limit': nat, ms: seq<MemberNode>)
    requires Kept(before, after, limit) && MembersBelow(ms, limit) && limit <= limit'
    ensures LoadMembers(before, ms) == LoadMembers(after, ms) && MembersBelow(ms, limit')
    decreases ms
  {
    if ms != [] {
      MembersKept(before, after, limit, limit', ms[..|ms| - 1]);
      MemberKept(before, after, limit, limit', ms[|ms| - 1]);
    }
  }

  lemma {:induction false} MemberKept(before: Bytes, after: Bytes, limit: nat, limit': nat, m: MemberNode)
    requires Kept(before, after, limit) && MemberBelow(m, limit) && limit <= limit'
    ensures LoadMember(before, m) == LoadMember(after, m) && MemberBelow(m, limit')
    decreases m
  {
    ReadKept(before, after, limit, m.name);
    LoadKept(before, after, limit, limit', m.value);
  }

  lemma {:induction false} ElementsKept(before: Bytes, after: Bytes, limit: nat, limit': nat, es: seq<Node>)
    requires Kept(before, after, limit) && ElementsBelow(es, limit) && limit <= limit'
    ensures LoadElements(before, es) == LoadElements(after, es) && ElementsBelow(es, limit')
    decreases es
  {
    if es != [] {
      ElementsKept(before, after, limit, limit', es[..|es| - 1]);
      LoadKept(before, after, limit, limit', es[|es| - 1]);
    }
  }

  /** A list that grows at its end is read in order. */
  lemma MembersSnoc(mem: Bytes, ms: seq<MemberNode>, m: MemberNode, limit: nat, tail: seq<Member>)
    requires MembersBelow(ms, limit) && MemberBelow(m, limit)
    ensures MembersBelow(ms + [m], limit)
    ensures LoadMembers(mem, ms + [m]) + tail == LoadMembers(mem, ms) + ([LoadMember(mem, m)] + tail)
  {
    assert (ms + [m])[..|ms|] == ms;
  }

  lemma ElementsSnoc(mem: Bytes, es: seq<Node>, n: Node, limit: nat, tail: seq<Json>)
    requires ElementsBelow(es, limit) && Below(n, limit)
    ensures ElementsBelow(es + [n], limit)
    ensures LoadElements(mem, es + [n]) + tail == LoadElements(mem, es) + ([Load(mem, n)] + tail)
  {
    assert (es + [n])[..|es|] == es;
  }
}
