/** The swap space: a singly linked list of pages, each under a token of its own. */
module SwapQueue {
  import opened VmModel

  type Entry = (nat, seq<Byte>)

  /** Each page in the list has its own token, and all were issued before `limit`. */
  ghost predicate Distinct(s: seq<Entry>, limit: nat) {
    && (forall i | 0 <= i < |s| :: s[i].0 < limit)
    && (forall i, j | 0 <= i < j < |s| :: s[i].0 != s[j].0)
  }

  ghost function MapOf(s: seq<Entry>): map<nat, seq<Byte>> {
    if s == [] then map[] else MapOf(s[..|s| - 1])[s[|s| - 1].0 := s[|s| - 1].1]
  }

  ghost predicate At(s: seq<Entry>, i: int, token: nat) {
    0 <= i < |s| && s[i].0 == token
  }

  /** The map has exactly the listed tokens, each with its own page. */
  lemma {:induction false} MapOfMeaning(s: seq<Entry>, limit: nat)
    requires Distinct(s, limit)
    ensures forall i | 0 <= i < |s| :: s[i].0 in MapOf(s) && MapOf(s)[s[i].0] == s[i].1
    ensures forall token | token in MapOf(s) :: token < limit && exists i :: At(s, i, token)
  {
    if s != [] {
      var r := s[..|s| - 1];
      MapOfMeaning(r, limit);
      forall token | token in MapOf(s)
        ensures token < limit && exists i :: At(s, i, token)
      {
        if token in MapOf(r) {
          var i :| At(r, i, token);
          assert At(s, i, token);
        } else {
          assert At(s, |s| - 1, token);
        }
      }
    }
  }

  lemma MapOfAppend(s: seq<Entry>, limit: nat, data: seq<Byte>)
    requires Distinct(s, limit)
    ensures Distinct(s + [(limit, data)], limit + 1)
    ensures MapOf(s + [(limit, data)]) == MapOf(s)[limit := data]
    ensures limit !in MapOf(s)
  {
  }

  ghost function Without(s: seq<Entry>, k: nat): seq<Entry>
    requires k < |s|
  {
    s[..k] + s[k + 1..]
  }

  lemma WithoutLast(s: seq<Entry>, k: nat)
    requires k + 1 < |s|
    ensures var r, front := Without(s, k), Without(s[..|s| - 1], k);
      r[..|r| - 1] == front && r[|r| - 1] == s[|s| - 1] && r == front + [s[|s| - 1]]
  {
  }

  lemma MinusUpdate(m: map<nat, seq<Byte>>, gone: nat, token: nat, data: seq<Byte>)
    requires gone != token
    ensures (m - {gone})[token := data] == m[token := data] - {gone}
  {
  }

  lemma {:induction false} MapOfRemove(s: seq<Entry>, limit: nat, k: nat)
    requires Distinct(s, limit) && k < |s|
    ensures MapOf(Without(s, k)) == MapOf(s) - {s[k].0}
    decreases |s|
  {
    var front, last := s[..|s| - 1], s[|s| - 1];
    if k == |s| - 1 {
      MapOfMeaning(front, limit);
      assert Without(s, k) == front;
    } else {
      MapOfRemove(front, limit, k);
      WithoutLast(s, k);
      MinusUpdate(MapOf(front), s[k].0, last.0, last.1);
    }
  }

  lemma WithoutDistinct(s: seq<Entry>, limit: nat, k: nat)
    requires Distinct(s, limit) && k < |s|
    ensures Distinct(Without(s, k), limit)
  {
  }

  lemma {:induction false} MapOfUpdate(s: seq<Entry>, limit: nat, k: nat, data: seq<Byte>)
    requires Distinct(s, limit) && k < |s|
    ensures Distinct(s[k := (s[k].0, data)], limit)
    ensures MapOf(s[k := (s[k].0, data)]) == MapOf(s)[s[k].0 := data]
    decreases |s|
  {
    var front, last := s[..|s| - 1], s[|s| - 1];
    var r := s[k := (s[k].0, data)];
    if k == |s| - 1 {
      assert r[..|r| - 1] == front;
    } else {
      MapOfUpdate(front, limit, k, data);
      assert r[..|r| - 1] == front[k := (s[k].0, data)];
      assert last.0 != s[k].0;
    }
  }

  class SwapInfo {
    const token: nat
    var data: seq<Byte>
    var next: SwapInfo?

    constructor (token: nat)
      ensures this.token == token && data == [] && next == null
    {
      this.token, data, next := token, [], null;
    }
  }

  class SwapQueue {
    var head: SwapInfo?
    var tail: SwapInfo?
    var size: nat
    var sizeMax: nat
    /** The static counter of `create_entry`. */
    var nextToken: nat
    /** The nodes in list order. */
    ghost var nodes: seq<SwapInfo>

    ghost predicate Valid()
      reads this, nodes
    {
      Linked() && 0 < nextToken && Distinct(Entries(), nextToken)
    }

    /** Head, tail, size and the `next` pointers all describe the same list. */
    ghost predicate Linked()
      reads this, nodes
    {
      && size == |nodes| <= sizeMax
      && (nodes == [] ==> head == null && tail == null)
      && (nodes != [] ==> head == nodes[0] && tail == nodes[|nodes| - 1])
      && (nodes != [] ==> nodes[|nodes| - 1].next == null)
      && (forall i, j | 0 <= i < j == i + 1 < |nodes| :: nodes[i].next == nodes[j])
      && (forall i, j | 0 <= i < j < |nodes| :: nodes[i] != nodes[j])
    }

    /** Token and page of every node, in list order. */
    ghost function Entries(): (r: seq<Entry>)
      reads this, nodes
      ensures |r| == |nodes|
    {
      seq(|nodes|, i requires 0 <= i < |nodes| reads this, nodes => (nodes[i].token, nodes[i].data))
    }

    /** The list as a map from tokens to pages. */
    ghost function AsMap(): map<nat, seq<Byte>>
      requires Valid()
      reads this, nodes
    {
      MapOf(Entries())
    }

    ghost function NodeSet(): set<object>
      reads this
    {
      set n | n in nodes
    }

    constructor ()
      ensures Valid() && nodes == [] && AsMap() == map[] && nextToken == 1 && size == sizeMax == 0
    {
      head, tail, size, sizeMax, nextToken, nodes := null, null, 0, 0, 1, [];
    }

    /** `swap_queue_enqueue` */
    method Append(info: SwapInfo)
      requires Linked() && info !in nodes
      modifies this`head, this`tail, this`size, this`sizeMax, this`nodes, nodes`next, info`next
      ensures Linked() && nodes == old(nodes) + [info]
      ensures Entries() == old(Entries()) + [(info.token, info.data)]
      ensures sizeMax == if size > old(sizeMax) then size else old(sizeMax)
    {
      info.next := null;
      if head == null {
        head, tail := info, info;
      } else {
        tail.next := info;
        tail := info;
      }
      size := size + 1;
      if size > sizeMax {
        sizeMax := size;
      }
      nodes := nodes + [info];
    }

    /** `create_entry`, with the copy of the page that `swap_write` makes. */
    method CreateEntry(data: seq<Byte>) returns (info: SwapInfo)
      requires Linked()
      modifies this`nextToken
      ensures fresh(info) && info !in nodes
      ensures info.token == old(nextToken) && info.data == data && nextToken == old(nextToken) + 1
    {
      info := new SwapInfo(nextToken);
      nextToken := nextToken + 1;
      info.data := data;
    }

    /** `create_entry` followed by `swap_queue_enqueue`. */
    method Enqueue(data: seq<Byte>) returns (token: nat)
      requires Valid()
      modifies this, nodes
      ensures Valid()
      ensures token == old(nextToken) && nextToken == old(nextToken) + 1
      ensures AsMap() == old(AsMap())[token := data]
      ensures Entries() == old(Entries()) + [(token, data)]
      ensures fresh(NodeSet() - old(NodeSet()))
      ensures sizeMax == if size > old(sizeMax) then size else old(sizeMax)
    {
      MapOfAppend(Entries(), nextToken, data);
      var info := CreateEntry(data);
      assert Entries() == old(Entries());
      token := info.token;
      Append(info);
    }

    /** `swap_queue_find` */
    method Find(token: nat) returns (info: SwapInfo?)
      requires Valid()
      ensures info == null <==> token !in AsMap()
      ensures info != null ==> info in nodes && info.token == token && info.data == AsMap()[token]
    {
      MapOfMeaning(Entries(), nextToken);
      info := head;
      ghost var i := 0;
      while info != null
        invariant 0 <= i <= |nodes|
        invariant info == if i < |nodes| then nodes[i] else null
        invariant forall j | 0 <= j < i :: Entries()[j].0 != token
        decreases |nodes| - i
      {
        if info.token == token {
          assert Entries()[i] == (info.token, info.data);
          return;
        }
        info := info.next;
        i := i + 1;
      }
    }

    /** The copy into a node that `swap_write` found. */
    method Overwrite(info: SwapInfo, data: seq<Byte>)
      requires Valid() && info in nodes
      modifies info`data
      ensures Valid() && AsMap() == old(AsMap())[info.token := data]
    {
      ghost var k :| 0 <= k < |nodes| && nodes[k] == info;
      MapOfUpdate(Entries(), nextToken, k, data);
      info.data := data;
      assert Entries() == old(Entries())[k := (info.token, data)];
    }

    /** `swap_queue_dequeue`: the node with this token leaves; the others keep their order,
        their tokens and their pages. */
    method Dequeue(token: nat)
      requires Valid() && token in AsMap()
      modifies this, nodes
      ensures Valid() && AsMap() == old(AsMap()) - {token}
      ensures sizeMax == old(sizeMax) && nextToken == old(nextToken)
      ensures exists k ::
                0 <= k < |old(Entries())| && old(Entries())[k].0 == token && Entries() == Without(old(Entries()), k)
      ensures forall n | n in nodes :: n in old(nodes)
    {
      var i, prev, curr := Locate(token);
      MapOfRemove(Entries(), nextToken, i);
      WithoutDistinct(Entries(), nextToken, i);
      Unlink(i, prev, curr);
    }

    /** The search loop of `swap_queue_dequeue`. */
    method Locate(token: nat) returns (ghost i: nat, prev: SwapInfo?, curr: SwapInfo)
      requires Valid() && token in AsMap()
      ensures i < |nodes| && curr == nodes[i] && curr.token == token
      ensures prev == if i == 0 then null else nodes[i - 1]
    {
      MapOfMeaning(Entries(), nextToken);
      var next := head;
      prev, i := null, 0;
      while next != null
        invariant 0 <= i <= |nodes|
        invariant next == if i < |nodes| then nodes[i] else null
        invariant prev == if i == 0 then null else nodes[i - 1]
        invariant forall j | 0 <= j < i :: Entries()[j].0 != token
        decreases |nodes| - i
      {
        if next.token == token {
          break;
        }
        prev := next;
        next := next.next;
        i := i + 1;
      }
      curr := next;
    }

    /** The pointer surgery of `swap_queue_dequeue` on the node at position `i`. */
    method Unlink(ghost i: nat, prev: SwapInfo?, curr: SwapInfo)
      requires Linked() && i < |nodes| && curr == nodes[i]
      requires prev == if i == 0 then null else nodes[i - 1]
      modifies this`head, this`tail, this`size, this`nodes, nodes`next
      ensures Linked() && nodes == old(nodes[..i] + nodes[i + 1..])
      ensures Entries() == Without(old(Entries()), i)
    {
      if prev != null {
        prev.next := curr.next;
      } else {
        head := curr.next;
      }
      if curr == tail {
        tail := prev;
      }
      size := size - 1;
      curr.next := null;
      nodes := nodes[..i] + nodes[i + 1..];
    }
  }
}
