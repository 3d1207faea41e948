/** The second pass of json_parse: builds the tree in one allocation, trusting the first pass. */
module JsonFiller {
  import opened Options
  import opened JsonText
  import opened JsonPieces
  import opened JsonString
  import opened JsonNumber
  import opened JsonGrammar
  import opened JsonTree

  /** The part of json_parse_state_s that the second pass uses. Structures are carved from the first
      `domSize` bytes of the allocation, string and number data from the rest. */
  class Filler {
    const src: Bytes
    const memory: array<byte>
    const domSize: nat
    var offset: nat
    var dom: nat
    var data: nat

    constructor (src: Bytes, memory: array<byte>, domSize: nat)
      ensures this.src == src && this.memory == memory && this.domSize == domSize
      ensures offset == dom == 0 && data == domSize
    {
      this.src, this.memory, this.domSize := src, memory, domSize;
      offset, dom, data := 0, 0, domSize;
    }

    /** There is room for the given amounts of structure and data. */
    ghost predicate Room(structure: int, bytes: int)
      reads this
    {
      dom + structure <= domSize && data + bytes <= memory.Length
    }

    /** An accepted part of the text was taken in, from the given positions on. */
    ghost predicate Took<T>(r: Parsed<T>, domBefore: int, dataBefore: int)
      reads this
    {
      r.Accept? && offset == r.end && dom == domBefore + r.dom && data == dataBefore + r.data - r.pairs
    }

    /** An accepted value was built from the given positions on; its value structure was carved before. */
    ghost predicate Built(v: Parsed<Json>, n: Node, domBefore: nat, dataBefore: nat)
      reads this, memory
    {
      Took(v, domBefore - VALUE_SIZE, dataBefore) && Below(n, data) && Load(memory[..], n) == v.value
    }

    /** The rest of a list is what remains of the whole after using up some structure and data. */
    static ghost predicate Splits<T>(whole: Parsed<seq<T>>, rest: Parsed<seq<T>>, structure: int, bytes: int) {
      && whole.Accept? && rest.Accept? && whole.end == rest.end
      && whole.dom == structure + rest.dom && whole.data - whole.pairs == bytes + rest.data - rest.pairs
    }

    /** Take the next `size` bytes of the structure region. */
    method Carve(size: nat)
      requires Room(size, 0)
      modifies this`dom
      ensures dom == old(dom) + size
    {
      dom := dom + size;
    }

    method Skip()
      requires offset <= |src|
      modifies this`offset
      ensures offset == SkipSpace(src, old(offset))
    {
      while offset < |src| && IsWhitespace(src[offset])
        invariant offset <= |src| && SkipSpace(src, offset) == SkipSpace(src, old(offset))
      {
        offset := offset + 1;
      }
    }

    /** json_parse_string. */
    method ParseString() returns (s: Slice)
      requires Literal(src, offset).Accept?
      requires Room(0, Literal(src, offset).data - Literal(src, offset).pairs)
      modifies this`offset, this`data, memory
      ensures
        var literal := Literal(src, old(offset));
        && offset == literal.end && data == old(data) + literal.data - literal.pairs
        && s.at + s.size <= data && Read(memory[..], s) == literal.value
      ensures Kept(old(memory[..]), memory[..], old(data))
    {
      var end, size := StoreString(src, offset, memory, data);
      WrittenSlice(old(memory[..]), data, Text(Lex(src, offset + 1).pieces), memory[..]);
      s := Slice(data, size);
      data := data + size + 1;
      offset := end;
    }

    /** json_parse_number. */
    method ParseNumber() returns (s: Slice)
      requires offset <= |src| && NumberEnd(src, offset).Some?
      requires Room(0, NumberEnd(src, offset).value - offset + 1)
      modifies this`offset, this`data, memory
      ensures offset == NumberEnd(src, old(offset)).value && data == old(data) + (offset - old(offset)) + 1
      ensures s.at + s.size <= data && Read(memory[..], s) == src[old(offset)..offset]
      ensures Kept(old(memory[..]), memory[..], old(data))
    {
      var end, size := StoreNumber(src, offset, memory, data);
      WrittenSlice(old(memory[..]), data, src[offset..end], memory[..]);
      s := Slice(data, size);
      data := data + size + 1;
      offset := end;
    }

    /** The start of every round of the list loops. The source goes round once more after a comma;
        the closing byte cannot follow one, so both rounds are taken as one here. */
    method Separate(comma: bool, close: byte) returns (closed: bool)
      requires offset <= |src| && SkipSpace(src, offset) < |src|
      requires src[SkipSpace(src, offset)] != close ==> Separator(src, SkipSpace(src, offset), comma).Some?
      modifies this`offset
      ensures
        var j := SkipSpace(src, old(offset));
        if src[j] == close then closed && offset == j + 1
        else !closed && Separator(src, j, comma) == Some(offset)
    {
      Skip();
      if close == src[offset] {
        offset := offset + 1;
        return true;
      }
      if comma && COMMA == src[offset] {
        offset := offset + 1;
        Skip();
      }
      closed := false;
    }

    method Colon()
      requires offset <= |src| && AfterColon(src, offset).Some?
      modifies this`offset
      ensures AfterColon(src, old(offset)) == Some(offset)
    {
      Skip();
      offset := offset + 1;
      Skip();
    }

    /** One round of the loop of json_parse_object. `whole` is what the grammar says of the members
        from here on, `rest` what it says after this round. */
    method FillMember(comma: bool, ghost whole: Parsed<seq<Member>>)
      returns (closed: bool, m: MemberNode, ghost rest: Parsed<seq<Member>>)
      requires offset <= |src| && whole == Members(src, offset, comma)
      requires whole.Accept? && Room(whole.dom, whole.data - whole.pairs)
      modifies this`offset, this`dom, this`data, memory
      ensures old(offset) < offset <= |src| && old(data) <= data && Kept(old(memory[..]), memory[..], old(data))
      ensures closed ==> whole == Accept(offset, [], 0, 0, 0) && dom == old(dom) && data == old(data)
      ensures !closed ==> rest == Members(src, offset, true) && Splits(whole, rest, dom - old(dom), data - old(data))
      ensures !closed ==> MemberBelow(m, data) && whole.value == [LoadMember(memory[..], m)] + rest.value
      decreases |src| - offset, 1
    {
      m, rest := MemberNode(Slice(0, 0), NullNode), Reject;
      closed := Separate(comma, RBRACE);
      if closed { return; }
      Carve(MEMBER_SIZE);
      Carve(STRING_SIZE);
      var name := ParseString();
      Colon();
      Carve(VALUE_SIZE);
      label before:
      var value := ParseValue(Value(src, offset));
      ReadKept(old@before(memory[..]), memory[..], old@before(data), name);
      KeptAcross(old(memory[..]), old@before(memory[..]), memory[..], old(data), old@before(data));
      m, rest := MemberNode(name, value), Members(src, offset, true);
    }

    /** json_parse_object. */
    method ParseObject(ghost whole: Parsed<seq<Member>>) returns (ms: seq<MemberNode>)
      requires offset < |src| && src[offset] == LBRACE && whole == Members(src, offset + 1, false)
      requires whole.Accept? && Room(whole.dom, whole.data - whole.pairs)
      modifies this`offset, this`dom, this`data, memory
      ensures Kept(old(memory[..]), memory[..], old(data))
      ensures Took(whole, old(dom), old(data))
      ensures MembersBelow(ms, data) && LoadMembers(memory[..], ms) == whole.value
      decreases |src| - offset, 0
    {
      offset := offset + 1;
      ms := [];
      var comma := false;
      ghost var rest := whole;
      while true
        invariant old(offset) < offset <= |src| && old(data) <= data && Kept(old(memory[..]), memory[..], old(data))
        invariant rest == Members(src, offset, comma) && Splits(whole, rest, dom - old(dom), data - old(data))
        invariant MembersBelow(ms, data) && whole.value == LoadMembers(memory[..], ms) + rest.value
        decreases |src| - offset
      {
        label round:
        ghost var now := rest;
        var closed, m;
        closed, m, rest := FillMember(comma, now);
        MembersKept(old@round(memory[..]), memory[..], old@round(data), data, ms);
        KeptAcross(old(memory[..]), old@round(memory[..]), memory[..], old(data), old@round(data));
        if closed {
          assert whole.value == LoadMembers(memory[..], ms);
          break;
        }
        MembersSnoc(memory[..], ms, m, data, rest.value);
        ms, comma := ms + [m], true;
      }
    }

    /** One round of the loop of json_parse_array. */
    method FillElement(comma: bool, ghost whole: Parsed<seq<Json>>)
      returns (closed: bool, n: Node, ghost rest: Parsed<seq<Json>>)
      requires offset <= |src| && whole == Elements(src, offset, comma)
      requires whole.Accept? && Room(whole.dom, whole.data - whole.pairs)
      modifies this`offset, this`dom, this`data, memory
      ensures old(offset) < offset <= |src| && old(data) <= data && Kept(old(memory[..]), memory[..], old(data))
      ensures closed ==> whole == Accept(offset, [], 0, 0, 0) && dom == old(dom) && data == old(data)
      ensures !closed ==> rest == Elements(src, offset, true) && Splits(whole, rest, dom - old(dom), data - old(data))
      ensures !closed ==> Below(n, data) && whole.value == [Load(memory[..], n)] + rest.value
      decreases |src| - offset, 3
    {
      n, rest := NullNode, Reject;
      closed := Separate(comma, RBRACKET);
      if closed { return; }
      Carve(ELEMENT_SIZE);
      Carve(VALUE_SIZE);
      n := ParseValue(Value(src, offset));
      rest := Elements(src, offset, true);
    }

    /** json_parse_array. */
    method ParseArray(ghost whole: Parsed<seq<Json>>) returns (es: seq<Node>)
      requires offset < |src| && src[offset] == LBRACKET && whole == Elements(src, offset + 1, false)
      requires whole.Accept? && Room(whole.dom, whole.data - whole.pairs)
      modifies this`offset, this`dom, this`data, memory
      ensures Kept(old(memory[..]), memory[..], old(data))
      ensures Took(whole, old(dom), old(data))
      ensures ElementsBelow(es, data) && LoadElements(memory[..], es) == whole.value
      decreases |src| - offset, 0
    {
      offset := offset + 1;
      es := [];
      var comma := false;
      ghost var rest := whole;
      while true
        invariant old(offset) < offset <= |src| && old(data) <= data && Kept(old(memory[..]), memory[..], old(data))
        invariant rest == Elements(src, offset, comma) && Splits(whole, rest, dom - old(dom), data - old(data))
        invariant ElementsBelow(es, data) && whole.value == LoadElements(memory[..], es) + rest.value
        decreases |src| - offset
      {
        label round:
        ghost var now := rest;
        var closed, n;
        closed, n, rest := FillElement(comma, now);
        ElementsKept(old@round(memory[..]), memory[..], old@round(data), data, es);
        KeptAcross(old(memory[..]), old@round(memory[..]), memory[..], old(data), old@round(data));
        if closed {
          assert whole.value == LoadElements(memory[..], es);
          break;
        }
        ElementsSnoc(memory[..], es, n, data, rest.value);
        es, comma := es + [n], true;
      }
    }

    // The cases of json_parse_value, once the value's first byte is known.

    method StringValue(ghost v: Parsed<Json>) returns (n: Node)
      requires v == StringAt(src, offset) && v.Accept? && Room(v.dom - VALUE_SIZE, v.data - v.pairs)
      modifies this`offset, this`dom, this`data, memory
      ensures Kept(old(memory[..]), memory[..], old(data)) && Built(v, n, old(dom), old(data))
    {
      Carve(STRING_SIZE);
      var s := ParseString();
      n := StringNode(s);
    }

    method NumberValue(ghost v: Parsed<Json>) returns (n: Node)
      requires offset < |src| && StartsNumber(src[offset])
      requires v == NumberAt(src, offset) && v.Accept? && Room(v.dom - VALUE_SIZE, v.data - v.pairs)
      modifies this`offset, this`dom, this`data, memory
      ensures Kept(old(memory[..]), memory[..], old(data)) && Built(v, n, old(dom), old(data))
    {
      Carve(NUMBER_SIZE);
      var s := ParseNumber();
      n := NumberNode(s);
    }

    method ObjectValue(ghost v: Parsed<Json>) returns (n: Node)
      requires offset < |src| && src[offset] == LBRACE
      requires v == ObjectAt(src, offset) && v.Accept? && Room(v.dom - VALUE_SIZE, v.data - v.pairs)
      modifies this`offset, this`dom, this`data, memory
      ensures Kept(old(memory[..]), memory[..], old(data)) && Built(v, n, old(dom), old(data))
      decreases |src| - offset, 1
    {
      Carve(OBJECT_SIZE);
      var ms := ParseObject(Members(src, offset + 1, false));
      n := ObjectNode(ms);
    }

    method ArrayValue(ghost v: Parsed<Json>) returns (n: Node)
      requires offset < |src| && src[offset] == LBRACKET
      requires v == ArrayAt(src, offset) && v.Accept? && Room(v.dom - VALUE_SIZE, v.data - v.pairs)
      modifies this`offset, this`dom, this`data, memory
      ensures Kept(old(memory[..]), memory[..], old(data)) && Built(v, n, old(dom), old(data))
      decreases |src| - offset, 1
    {
      Carve(ARRAY_SIZE);
      var es := ParseArray(Elements(src, offset + 1, false));
      n := ArrayNode(es);
    }

    method KeywordValue(ghost v: Parsed<Json>) returns (n: Node)
      requires v == KeywordAt(src, offset) && v.Accept? && data <= memory.Length
      modifies this`offset
      ensures Built(v, n, old(dom), old(data))
    {
      if Occurs(src, offset, TRUE_TEXT) {
        n := TrueNode;
        offset := offset + 4;
      } else if Occurs(src, offset, FALSE_TEXT) {
        n := FalseNode;
        offset := offset + 5;
      } else {
        n := NullNode;
        offset := offset + 4;
      }
    }

    /** json_parse_value: never leaves the room the first pass measured, ends where the first pass
        ended, and builds the tree the text stands for. */
    method ParseValue(ghost v: Parsed<Json>) returns (n: Node)
      requires offset <= |src| && v == Value(src, offset)
      requires v.Accept? && Room(v.dom - VALUE_SIZE, v.data - v.pairs)
      modifies this`offset, this`dom, this`data, memory
      ensures Kept(old(memory[..]), memory[..], old(data)) && Built(v, n, old(dom), old(data))
      decreases |src| - offset, 2
    {
      Skip();
      if src[offset] == QUOTE {
        n := StringValue(v);
      } else if src[offset] == LBRACE {
        n := ObjectValue(v);
      } else if src[offset] == LBRACKET {
        n := ArrayValue(v);
      } else if StartsNumber(src[offset]) {
        n := NumberValue(v);
      } else {
        n := KeywordValue(v);
      }
    }
  }

  /** What was written can be read back, and memory below it was kept. */
  lemma WrittenSlice(was: Bytes, base: nat, text: Bytes, now: Bytes)
    requires Overwritten(was, base, text + [0], now)
    ensures Read(now, Slice(base, |text|)) == text && Kept(was, now, base)
  {
    assert now[base..base + |text|] == text;
    assert now[..base] == was[..base];
  }
}
