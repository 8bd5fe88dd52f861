// A well-formed tree and a stored key whose removal writes past the end of a page.
module BptOverflow {
  import opened BptTree
  import opened BptShrink
  import opened BptStore
  import opened Bpt

  // A root over a full internal page of 249 one-record leaves and an internal page of two.
  function FullPage(i: nat): Page {
    if i == 0 then Node(0, 0, [])
    else if i == 1 then Node(0, 2, [Entry(1000, 3)])
    else if i == 2 then Node(1, 4, seq(248, k requires 0 <= k < 248 => Entry(k + 1, 5 + k)))
    else if i == 3 then Node(1, 253, [Entry(1001, 254)])
    else if i <= 252 then Leaf(2, i + 1, [Record(i - 4, "")])
    else if i == 253 then Leaf(3, 254, [Record(1000, "")])
    else Leaf(3, 0, [Record(1001, "")])
  }

  function FullInfo(i: nat): Info {
    if i <= 1 then Info(2, Inf, Inf)
    else if i == 2 then Info(1, Inf, Key(1000))
    else if i == 3 then Info(1, Key(1000), Inf)
    else if i <= 252 then Info(0, if i == 4 then Inf else Key(i - 4), if i == 252 then Key(1000) else Key(i - 3))
    else if i == 253 then Info(0, Key(1000), Key(1001))
    else Info(0, Key(1001), Inf)
  }

  function FullPages(): Pages {
    seq(255, i requires 0 <= i < 255 => FullPage(i))
  }

  function FullTree(): Tree {
    map i: nat | 1 <= i < 255 :: i := FullInfo(i)
  }

  lemma {:induction false} FullInnerOk()
    ensures PageOk(FullPages(), 1, FullTree(), {}, 2)
  {
    hide HasKid;
    var pages, tree := FullPages(), FullTree();
    IsKid(pages[1], 0);
    assert forall i: nat :: i <= |pages[2].ents| ==> KidOk(pages, tree, 2, pages[2], tree[2], i);
  }

  lemma {:induction false} FullUpperOk(p: nat)
    requires p == 1 || p == 3
    ensures PageOk(FullPages(), 1, FullTree(), {}, p)
  {
    hide HasKid;
    IsKid(FullPages()[1], 1);
  }

  lemma {:induction false} FullLeafOk(p: nat)
    requires 4 <= p < 255
    ensures PageOk(FullPages(), 1, FullTree(), {}, p)
  {
    hide HasKid;
    var pages := FullPages();
    if p <= 252 {
      IsKid(pages[2], p - 4);
      assert Kid(pages[2], p - 4) == p;
    } else {
      IsKid(pages[3], p - 253);
      assert Kid(pages[3], p - 253) == p;
    }
  }

  lemma {:induction false} FullPageOk(p: nat)
    requires 1 <= p < 255
    ensures PageOk(FullPages(), 1, FullTree(), {}, p)
  {
    hide PageOk;
    if p == 2 {
      FullInnerOk();
    } else if p <= 3 {
      FullUpperOk(p);
    } else {
      FullLeafOk(p);
    }
  }

  lemma {:induction false} FullTreeOk()
    ensures WF(FullPages(), 1, FullTree(), {})
  {
    hide PageOk;
    forall p | p in FullTree() ensures PageOk(FullPages(), 1, FullTree(), {}, p) {
      FullPageOk(p);
    }
  }

  lemma {:induction false} FullNeighbor()
    ensures HasKid(FullPages()[1], 3) && Neighbor(FullPages()[1], 3) == 2
  {
    IsKid(FullPages()[1], 1);
  }

  lemma {:induction false} FullShape()
    ensures |FullPages()| == 255 && FullPages()[253] == Leaf(3, 254, [Record(1000, "")])
    ensures FullPages()[1].ppo == 0 && FullPages()[3] == Node(1, 253, [Entry(1001, 254)])
    ensures FullPages()[2].Node? && Size(FullPages()[2]) == INTERNAL_MAX
    ensures 3 in FullTree() && 253 in FullTree() && Within(FullTree()[253], 1000)
  {
  }

  lemma {:induction false} NoRoom()
    requires WF(FullPages(), 1, FullTree(), {}) && 3 in FullTree()
    ensures !Room(FullPages(), 1, FullTree(), {}, 3)
  {
    hide WF, FullPages, FullTree, HasKid;
    FullShape();
    FullNeighbor();
    MergeReady(FullPages(), 1, FullTree(), {}, 3);
  }

  lemma {:induction false} AllTree()
    ensures FreeOk(FullPages(), 0, [], FullTree(), {})
  {
  }

  // Removing key 1000 empties leaf 253, then page 3, whose only neighbour, page 2, holds 248 entries.
  lemma {:induction false} OverflowHappens()
    ensures WF(FullPages(), 1, FullTree(), {}) && 253 in FullTree() && |FullPages()| > 253
    ensures FullPages()[253] == Leaf(3, 254, [Record(1000, "")]) && Within(FullTree()[253], 1000)
    ensures !MergeFits(FullPages(), 1, FullTree(), {}, 253)
    ensures FreeOk(FullPages(), 0, [], FullTree(), {})
  {
    AllTree();
    hide WF, FullPages, FullTree, HasKid, MergeFits, Room;
    FullTreeOk();
    FullShape();
    NoRoom();
    FitsUnfold(FullPages(), 1, FullTree(), {}, 253);
    FitsUnfold(FullPages(), 1, FullTree(), {}, 3);
  }

  // delete on a database that holds this store: the key is found, and its removal overflows.
  method DeleteOverflows() returns (r: int, overflow: bool)
    ensures r == 0 && overflow
  {
    hide WF, FullPages, FullTree, MergeFits, FreeOk, Functional;
    OverflowHappens();
    var db := new Db.Open(FullPages(), 0, 1, FullTree(), []);
    InMap(db);
    r, overflow := db.Delete(1000);
  }

  lemma {:induction false} InMap(db: Db)
    requires db.Valid() && db.rpo != 0 && 253 in db.tree && |db.pages| > 253 &&
      db.pages[253] == Leaf(3, 254, [Record(1000, "")])
    ensures 1000 in db.Map()
  {
    hide FreeOk, PageOk;
    assert db.pages[253].recs[0] == Record(1000, "");
    assert Record(1000, "") in db.Contents();
  }
}
