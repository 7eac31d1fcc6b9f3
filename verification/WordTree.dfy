/** WordprocessingML element trees, and the text a reader sees in them. */
module WordTree {
  import opened PyText

  datatype Tag =
    | Paragraph | Run | TextElem | RunProps | ParaProps | Hyperlink | BookmarkStart | BookmarkEnd
    | Other(name: string)

  datatype Key = Id | Name | Anchor | Space | OtherKey(name: string)

  datatype Tree = Node(tag: Tag, attrib: map<Key, string>, text: string, tail: string, children: seq<Tree>)

  /** The concatenated `w:t` text of an element. */
  function TextOf(t: Tree): string
    decreases t, 0
  {
    (if t.tag == TextElem then t.text else "") + TextOfAll(t.children)
  }

  function TextOfAll(ts: seq<Tree>): string
    decreases ts, 1
  {
    if ts == [] then "" else TextOf(ts[0]) + TextOfAll(ts[1..])
  }

  lemma {:induction false} TextOfOne(t: Tree)
    ensures TextOfAll([t]) == TextOf(t)
  {
    assert [t][1..] == [];
    assert TextOf(t) + "" == TextOf(t);
  }

  lemma {:induction false} TextOfCons(t: Tree, rest: seq<Tree>)
    ensures TextOfAll([t] + rest) == TextOf(t) + TextOfAll(rest)
  {
    assert ([t] + rest)[1..] == rest;
  }

  lemma {:induction false} TextOfJoin(a: seq<Tree>, b: seq<Tree>)
    ensures TextOfAll(a + b) == TextOfAll(a) + TextOfAll(b)
    decreases |a|
  {
    if a == [] {
      assert a + b == b;
    } else {
      TextOfJoin(a[1..], b);
      assert (a + b)[1..] == a[1..] + b;
    }
  }

  function Only(ts: seq<Tree>, tag: Tag): seq<Tree> {
    if ts == [] then [] else (if ts[0].tag == tag then [ts[0]] else []) + Only(ts[1..], tag)
  }

  lemma {:induction false} OnlyJoin(a: seq<Tree>, b: seq<Tree>, tag: Tag)
    ensures Only(a + b, tag) == Only(a, tag) + Only(b, tag)
    decreases |a|
  {
    if a == [] {
      assert a + b == b;
    } else {
      OnlyJoin(a[1..], b, tag);
      assert (a + b)[1..] == a[1..] + b;
      assert Only(a + b, tag) == (if a[0].tag == tag then [a[0]] else []) + (Only(a[1..], tag) + Only(b, tag));
    }
  }

  lemma {:induction false} OnlyTwice(ts: seq<Tree>, first: Tag, second: Tag)
    ensures Only(Only(ts, first), second) == if first == second then Only(ts, first) else []
    decreases |ts|
  {
    if ts != [] {
      OnlyTwice(ts[1..], first, second);
      if ts[0].tag == first {
        assert Only(ts, first)[1..] == Only(ts[1..], first);
      } else {
        assert Only(ts, first) == Only(ts[1..], first);
      }
    }
  }

  /** Every element of a tree, the root included, satisfies `ok`. */
  ghost predicate Every(t: Tree, ok: Tree -> bool)
    decreases t, 0
  {
    ok(t) && EveryOf(t.children, ok)
  }

  ghost predicate EveryOf(ts: seq<Tree>, ok: Tree -> bool)
    decreases ts, 1
  {
    ts == [] || (Every(ts[0], ok) && EveryOf(ts[1..], ok))
  }

  lemma {:induction false} EveryJoin(a: seq<Tree>, b: seq<Tree>, ok: Tree -> bool)
    ensures EveryOf(a + b, ok) <==> EveryOf(a, ok) && EveryOf(b, ok)
    decreases |a|
  {
    if a == [] {
      assert a + b == b;
    } else {
      EveryJoin(a[1..], b, ok);
      assert (a + b)[1..] == a[1..] + b;
    }
  }

  lemma {:induction false} EveryOnly(ts: seq<Tree>, tag: Tag, ok: Tree -> bool)
    requires EveryOf(ts, ok)
    ensures EveryOf(Only(ts, tag), ok)
    decreases |ts|
  {
    if ts != [] {
      EveryOnly(ts[1..], tag, ok);
      if ts[0].tag == tag {
        assert Only(ts, tag)[1..] == Only(ts[1..], tag);
      } else {
        assert Only(ts, tag) == Only(ts[1..], tag);
      }
    }
  }
}
