/** The first pass of json_parse: validates the text and measures the memory its tree will take. */
module JsonSizer {
  import opened Options
  import opened JsonText
  import opened JsonString
  import opened JsonNumber
  import opened JsonGrammar

  /** The part of json_parse_state_s that the first pass uses. */
  class Sizer {
    const src: Bytes
    var offset: nat
    var domSize: nat
    var dataSize: nat

    constructor (src: Bytes)
      ensures this.src == src && offset == domSize == dataSize == 0
    {
      this.src := src;
      offset, domSize, dataSize := 0, 0, 0;
    }

    /** The pass took in an accepted part of the text, from the given totals on. */
    ghost predicate Took<T>(r: Parsed<T>, domBefore: nat, dataBefore: nat)
      reads this
    {
      r.Accept? && offset == r.end && domSize == domBefore + r.dom && dataSize == dataBefore + r.data
    }

    /** json_skip_all_skippables: reports whether the text ended. */
    method Skip() returns (atEnd: bool)
      requires offset <= |src|
      modifies this`offset
      ensures offset == SkipSpace(src, old(offset)) && atEnd == (offset == |src|)
    {
      while offset < |src| && IsWhitespace(src[offset])
        invariant offset <= |src| && SkipSpace(src, offset) == SkipSpace(src, old(offset))
      {
        offset := offset + 1;
      }
      atEnd := offset == |src|;
    }

    method GetStringSize() returns (err: bool)
      requires offset < |src|
      modifies this
      ensures err == Literal(src, old(offset)).Reject?
      ensures !err ==> Took(Literal(src, old(offset)), old(domSize), old(dataSize))
    {
      domSize := domSize + STRING_SIZE;
      var end, size;
      err, end, size := StringSize(src, offset);
      if !err {
        offset := end;
        dataSize := dataSize + size;
      }
    }

    /** How the rest of a list continues after one item. */
    ghost predicate Continues<T>(whole: Parsed<seq<T>>, rest: Parsed<seq<T>>, dom: int, data: int) {
      && whole.Accept? == rest.Accept?
      && (whole.Accept? ==> whole.end == rest.end && whole.dom == dom + rest.dom && whole.data == data + rest.data)
    }

    /** The start of every round of the list loops: the closing byte, or a comma after the first item. */
    method Separate(comma: bool, close: byte) returns (err: bool, closed: bool)
      requires offset <= |src|
      modifies this`offset
      ensures
        var j := SkipSpace(src, old(offset));
        if j == |src| then err
        else if src[j] == close then !err && closed && offset == j + 1
        else !closed && Separator(src, j, comma) == if err then None else Some(offset)
    {
      closed := false;
      err := Skip();
      if err { return; }
      if close == src[offset] {
        offset := offset + 1;
        closed := true;
        return;
      }
      if comma {
        if COMMA != src[offset] { return true, false; }
        offset := offset + 1;
        err := Skip();
      }
    }

    /** The colon after a member's name. */
    method Colon() returns (err: bool)
      requires offset <= |src|
      modifies this`offset
      ensures AfterColon(src, old(offset)) == if err then None else Some(offset)
    {
      err := Skip();
      if err { return; }
      if COLON != src[offset] { return true; }
      offset := offset + 1;
      err := Skip();
    }

    /** One round of the loop of json_get_object_size: the closing brace, or one more member. */
    method SizeMember(comma: bool) returns (err: bool, closed: bool)
      requires offset <= |src|
      modifies this
      ensures !err ==> offset <= |src|
      ensures err ==> Members(src, old(offset), comma).Reject?
      ensures !err && closed ==>
        && Members(src, old(offset), comma) == Accept(offset, [], 0, 0, 0)
        && domSize == old(domSize) && dataSize == old(dataSize)
      ensures !err && !closed ==>
        && old(offset) < offset
        && Continues(Members(src, old(offset), comma), Members(src, offset, true),
                     MEMBER_SIZE + domSize - old(domSize), dataSize - old(dataSize))
      decreases |src| - offset, 1
    {
      err, closed := Separate(comma, RBRACE);
      if err || closed { return; }
      err := GetStringSize();
      if err { return; }
      err := Colon();
      if err { return; }
      err := GetValueSize();
    }

    /** json_get_object_size. */
    method GetObjectSize() returns (err: bool)
      requires offset < |src| && src[offset] == LBRACE
      modifies this
      ensures err == Members(src, old(offset) + 1, false).Reject?
      ensures !err ==> Took(Members(src, old(offset) + 1, false), old(domSize) + OBJECT_SIZE, old(dataSize))
      decreases |src| - offset, 0
    {
      offset := offset + 1;
      domSize := domSize + OBJECT_SIZE;
      ghost var whole := Members(src, offset, false);
      var elements, comma := 0, false;
      while true
        invariant old(offset) < offset <= |src|
        invariant Continues(whole, Members(src, offset, comma),
                            domSize - (old(domSize) + OBJECT_SIZE) + MEMBER_SIZE * elements, dataSize - old(dataSize))
        decreases |src| - offset
      {
        var closed;
        err, closed := SizeMember(comma);
        if err { return; }
        if closed { break; }
        elements, comma := elements + 1, true;
      }
      domSize := domSize + MEMBER_SIZE * elements;
    }

    /** One round of the loop of json_get_array_size: the closing bracket, or one more element. */
    method SizeElement(comma: bool) returns (err: bool, closed: bool)
      requires offset <= |src|
      modifies this
      ensures !err ==> offset <= |src|
      ensures err ==> Elements(src, old(offset), comma).Reject?
      ensures !err && closed ==>
        && Elements(src, old(offset), comma) == Accept(offset, [], 0, 0, 0)
        && domSize == old(domSize) && dataSize == old(dataSize)
      ensures !err && !closed ==>
        && old(offset) < offset
        && Continues(Elements(src, old(offset), comma), Elements(src, offset, true),
                     ELEMENT_SIZE + domSize - old(domSize), dataSize - old(dataSize))
      decreases |src| - offset, 3
    {
      err, closed := Separate(comma, RBRACKET);
      if err || closed { return; }
      err := GetValueSize();
    }

    /** json_get_array_size. */
    method GetArraySize() returns (err: bool)
      requires offset < |src| && src[offset] == LBRACKET
      modifies this
      ensures err == Elements(src, old(offset) + 1, false).Reject?
      ensures !err ==> Took(Elements(src, old(offset) + 1, false), old(domSize) + ARRAY_SIZE, old(dataSize))
      decreases |src| - offset, 0
    {
      offset := offset + 1;
      domSize := domSize + ARRAY_SIZE;
      ghost var whole := Elements(src, offset, false);
      var elements, comma := 0, false;
      while true
        invariant old(offset) < offset <= |src|
        invariant Continues(whole, Elements(src, offset, comma),
                            domSize - (old(domSize) + ARRAY_SIZE) + ELEMENT_SIZE * elements, dataSize - old(dataSize))
        decreases |src| - offset
      {
        var closed;
        err, closed := SizeElement(comma);
        if err { return; }
        if closed { break; }
        elements, comma := elements + 1, true;
      }
      domSize := domSize + ELEMENT_SIZE * elements;
    }

    method GetNumberSize() returns (err: bool)
      requires offset < |src|
      modifies this
      ensures err == NumberEnd(src, old(offset)).None?
      ensures !err ==>
        && offset == NumberEnd(src, old(offset)).value && domSize == old(domSize) + NUMBER_SIZE
        && dataSize == old(dataSize) + (offset - old(offset)) + 1
    {
      domSize := domSize + NUMBER_SIZE;
      var end, size;
      err, end, size := NumberSize(src, offset);
      if !err {
        offset := end;
        dataSize := dataSize + size;
      }
    }

    /** json_get_value_size: accepts exactly what the grammar accepts, and adds exactly the memory
        the grammar assigns to it. */
    method GetValueSize() returns (err: bool)
      requires offset <= |src|
      modifies this
      ensures err == Value(src, old(offset)).Reject?
      ensures !err ==> Took(Value(src, old(offset)), old(domSize), old(dataSize))
      decreases |src| - offset, 2
    {
      domSize := domSize + VALUE_SIZE;
      err := Skip();
      if err { return; }
      ghost var v := ValueAt(src, offset);
      if src[offset] == QUOTE {
        assert v == StringAt(src, offset);
        err := GetStringSize();
      } else if src[offset] == LBRACE {
        assert v == ObjectAt(src, offset);
        err := GetObjectSize();
      } else if src[offset] == LBRACKET {
        assert v == ArrayAt(src, offset);
        err := GetArraySize();
      } else if StartsNumber(src[offset]) {
        err := GetNumberSize();
      } else if Occurs(src, offset, TRUE_TEXT) {
        offset := offset + 4;
      } else if Occurs(src, offset, FALSE_TEXT) {
        offset := offset + 5;
      } else if Occurs(src, offset, NULL_TEXT) {
        offset := offset + 4;
      } else {
        err := true;
      }
    }
  }
}
