/** json_parse: both passes around one allocation. */
module JsonParse {
  import opened JsonText
  import opened JsonGrammar
  import opened JsonTree
  import opened JsonSizer
  import opened JsonFiller

  /** The outcome of a successful parse: the tree, the final contents of the allocation, and how many
      bytes of its structure part and of its data part were used. */
  datatype Outcome = Failed | Parsed(root: Node, memory: Bytes, domUsed: nat, dataUsed: nat)

  /** json_parse_ex with the default flags. `granted` says whether the allocation succeeds.

      A tree is returned exactly for the texts of the grammar. The second pass uses all of the
      structure space the first pass measured, and all of the data space but one byte for every
      surrogate pair, so it never leaves the allocation; and what it leaves in memory is the tree
      the text stands for. */
  method Parse(src: Bytes, granted: bool) returns (r: Outcome)
    ensures r.Parsed? == (granted && Document(src).Accept?)
    ensures r.Parsed? ==>
      var d := Document(src);
      && |r.memory| == d.dom + d.data
      && r.domUsed == d.dom
      && r.dataUsed == d.data - d.pairs
      && Below(r.root, d.dom + r.dataUsed)
      && Load(r.memory, r.root) == d.value
  {
    var sizer := new Sizer(src);
    var err := sizer.GetValueSize();
    if err {
      return Failed;
    }
    var _ := sizer.Skip();
    if sizer.offset != |src| || !granted {
      return Failed;
    }
    var memory := new byte[sizer.domSize + sizer.dataSize];
    var filler := new Filler(src, memory, sizer.domSize);
    filler.Carve(VALUE_SIZE);
    var root := filler.ParseValue(Value(src, 0));
    r := Parsed(root, memory[..], filler.dom, filler.data - sizer.domSize);
  }
}
