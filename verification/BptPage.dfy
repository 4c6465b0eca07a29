/** The pages of the tree, as the table and the buffers share them. */
module BptPage {
  datatype Rec = Rec(key: int, val: string)

  // kids[0] is left_page_num, kids[i + 1] is internal[i].page_num.
  datatype Page =
    | Leaf(parent: nat, recs: seq<Rec>, right: nat)
    | Node(parent: nat, keys: seq<int>, kids: seq<nat>)

  type Pages = map<nat, Page>

  const BLANK := Leaf(0, [], 0)
}
