/**
 libco: choosing the next coroutine at random. The eligible members of the coroutine list are
 strung together through their `brother` links, one is picked, and the links are taken away again.
 */
module RandChoose {
  import opened SeqFacts

  datatype Status = Unset | New | Running | Waiting | Dead

  class Co {
    var name: string
    var status: Status
    var next: Co?
    var brother: Co?

    constructor (name: string, status: Status)
      ensures this.name == name && this.status == status && next == null && brother == null
    {
      this.name, this.status, next, brother := name, status, null, null;
    }
  }

  predicate Eligible(s: Status) {
    s == New || s == Waiting
  }

  /** `nodes` is the list that starts at its first element and follows `next`. */
  ghost predicate NextList(nodes: seq<Co>)
    reads nodes`next
  {
    nodes != [] && Distinct(nodes) &&
    forall i {:trigger nodes[i].next} :: 0 <= i < |nodes| ==> nodes[i].next == if i + 1 < |nodes| then nodes[i + 1] else null
  }

  ghost predicate HasStatus(nodes: seq<Co>, stat: seq<Status>)
    reads nodes`status
  {
    |stat| == |nodes| && forall i {:trigger nodes[i].status} :: 0 <= i < |nodes| ==> nodes[i].status == stat[i]
  }

  /** Those of the first k members that may be chosen, in list order. */
  ghost function Candidates(nodes: seq<Co>, stat: seq<Status>, k: nat): (r: seq<Co>)
    requires k <= |nodes| == |stat|
  {
    if k == 0 then []
    else Candidates(nodes, stat, k - 1) + if Eligible(stat[k - 1]) then [nodes[k - 1]] else []
  }

  lemma {:induction false} CandidatesMembers(nodes: seq<Co>, stat: seq<Status>, k: nat, c: Co)
    requires k <= |nodes| == |stat|
    ensures c in Candidates(nodes, stat, k) <==>
            exists i :: 0 <= i < k && nodes[i] == c && (stat[i] == New || stat[i] == Waiting)
    decreases k
  {
    if k > 0 {
      CandidatesMembers(nodes, stat, k - 1, c);
    }
  }

  /** `chain` follows `brother` and ends. */
  ghost predicate BrotherChain(chain: seq<Co>)
    reads chain`brother
  {
    chain != [] && Distinct(chain) &&
    forall i {:trigger chain[i].brother} :: 0 <= i < |chain| ==> chain[i].brother == if i + 1 < |chain| then chain[i + 1] else null
  }

  /** rand_pool_append. */
  method PoolAppend(head: Co, co: Co, ghost chain: seq<Co>)
    requires BrotherChain(chain) && chain[0] == head && co !in chain && co.brother == null
    modifies chain`brother
    ensures BrotherChain(chain + [co])
  {
    var temp := head;
    ghost var i := 0;
    while temp.brother != null
      invariant 0 <= i < |chain| && temp == chain[i] && BrotherChain(chain)
      decreases |chain| - i
    {
      temp := temp.brother;
      i := i + 1;
    }
    temp.brother := co;
  }

  ghost predicate NoBrothers(nodes: seq<Co>, from: nat)
    reads nodes`brother
  {
    forall i {:trigger nodes[i].brother} :: from <= i < |nodes| ==> nodes[i].brother == null
  }

  /** Only the members of the pool have brothers. */
  ghost predicate OthersAlone(nodes: seq<Co>, chain: seq<Co>)
    reads nodes`brother
  {
    forall c {:trigger c.brother} :: c in nodes && c !in chain ==> c.brother == null
  }

  /** The pool holds its head and members of the list. */
  ghost predicate Inside(chain: seq<Co>, poolHead: Co, nodes: seq<Co>) {
    forall i :: 0 <= i < |chain| ==> chain[i] == poolHead || chain[i] in nodes
  }

  lemma NotYetIn(nodes: seq<Co>, stat: seq<Status>, poolHead: Co, k: nat)
    requires k < |nodes| == |stat| && Distinct(nodes) && poolHead !in nodes
    ensures nodes[k] in nodes && nodes[k] !in [poolHead] + Candidates(nodes, stat, k)
  {
    CandidatesMembers(nodes, stat, k, nodes[k]);
  }

  lemma PoolGrows(nodes: seq<Co>, stat: seq<Status>, poolHead: Co, k: nat, chain: seq<Co>)
    requires k < |nodes| == |stat| && chain == [poolHead] + Candidates(nodes, stat, k)
    ensures [poolHead] + Candidates(nodes, stat, k + 1) == if Eligible(stat[k]) then chain + [nodes[k]] else chain
  {
    ConcatAssoc([poolHead], Candidates(nodes, stat, k), [nodes[k]]);
    ConcatNil(Candidates(nodes, stat, k));
  }

  /** One more member in the pool. */
  method PoolTake(poolHead: Co, co: Co, ghost nodes: seq<Co>, ghost chain: seq<Co>)
    requires BrotherChain(chain) && OthersAlone(nodes, chain) && Inside(chain, poolHead, nodes)
    requires chain[0] == poolHead && co in nodes && co !in chain
    modifies nodes`brother, poolHead`brother
    ensures BrotherChain(chain + [co]) && OthersAlone(nodes, chain + [co]) && Inside(chain + [co], poolHead, nodes)
  {
    PoolAppend(poolHead, co, chain);
  }

  /** The pool so far: its head and the eligible ones of the first k members. */
  ghost predicate PoolOf(chain: seq<Co>, poolHead: Co, nodes: seq<Co>, stat: seq<Status>, k: nat)
    requires k <= |nodes| == |stat|
    reads chain`brother, nodes`brother
  {
    chain == [poolHead] + Candidates(nodes, stat, k) &&
    BrotherChain(chain) && OthersAlone(nodes, chain) && Inside(chain, poolHead, nodes)
  }

  /** One turn of the loop that fills the pool. */
  method Consider(poolHead: Co, co: Co, ghost nodes: seq<Co>, ghost stat: seq<Status>, ghost k: nat, ghost chain: seq<Co>)
    returns (more: nat, ghost chain': seq<Co>)
    requires HasStatus(nodes, stat) && Distinct(nodes) && poolHead !in nodes && k < |nodes| && co == nodes[k]
    requires PoolOf(chain, poolHead, nodes, stat, k)
    modifies nodes`brother, poolHead`brother
    ensures PoolOf(chain', poolHead, nodes, stat, k + 1) && |chain'| == |chain| + more
  {
    NotYetIn(nodes, stat, poolHead, k);
    PoolGrows(nodes, stat, poolHead, k, chain);
    more, chain' := 0, chain;
    if co.status == New || co.status == Waiting {
      PoolTake(poolHead, co, nodes, chain);
      more, chain' := 1, chain + [co];
    }
  }

  /** String the eligible members of the list together. */
  method BuildPool(head: Co, poolHead: Co, ghost nodes: seq<Co>, ghost stat: seq<Status>)
    returns (count: nat, ghost chain: seq<Co>)
    requires NextList(nodes) && HasStatus(nodes, stat) && nodes[0] == head && poolHead !in nodes
    requires poolHead.brother == null && NoBrothers(nodes, 0)
    modifies nodes`brother, poolHead`brother
    ensures PoolOf(chain, poolHead, nodes, stat, |nodes|) && |chain| == count + 1
  {
    count, chain := 0, [poolHead];
    var temp: Co? := head;
    ghost var k := 0;
    while temp != null
      invariant 0 <= k <= |nodes| && temp == (if k < |nodes| then nodes[k] else null)
      invariant PoolOf(chain, poolHead, nodes, stat, k) && |chain| == count + 1
      decreases |nodes| - k
    {
      var more;
      more, chain := Consider(poolHead, temp, nodes, stat, k, chain);
      count := count + more;
      temp := temp.next;
      k := k + 1;
    }
  }

  /** Follow the pool for `index` steps. */
  method Pick(poolHead: Co, index: nat, ghost chain: seq<Co>) returns (c: Co)
    requires BrotherChain(chain) && chain[0] == poolHead && index < |chain|
    ensures c == chain[index]
  {
    c := poolHead;
    for i := 0 to index
      invariant c == chain[i]
    {
      c := c.brother;
    }
  }

  /** Take all brother links away. */
  method TearDown(poolHead: Co, ghost chain: seq<Co>)
    requires BrotherChain(chain) && chain[0] == poolHead && |chain| > 1
    modifies chain`brother
    ensures NoBrothers(chain, 0)
  {
    var temp := poolHead.brother;
    poolHead.brother := null;
    ghost var i := 1;
    while temp.brother != null
      invariant 1 <= i < |chain| && temp == chain[i]
      invariant forall j :: 0 <= j < i ==> chain[j].brother == null
      invariant forall j {:trigger chain[j].brother} :: i <= j < |chain| ==>
        chain[j].brother == if j + 1 < |chain| then chain[j + 1] else null
      decreases |chain| - i
    {
      var previous := temp;
      temp := temp.brother;
      previous.brother := null;
      i := i + 1;
    }
  }

  ghost predicate NamesDiffer(nodes: seq<Co>)
    reads nodes`name
  {
    forall i, j :: 0 <= i < j < |nodes| ==> nodes[i].name != nodes[j].name
  }

  /** The position chosen the second time is another one, if there is another one. */
  lemma SecondTry(index: nat, count: nat)
    requires 1 <= index <= count
    ensures var again := if count == 2 then count + 1 - index else (index + 1) % count + 1;
            1 <= again <= count && (count >= 2 ==> again != index)
  {
    if count >= 3 {
      if index + 1 < count {
        assert (index + 1) % count == index + 1;
      } else if index + 1 == count {
        assert (index + 1) % count == 0;
      } else {
        assert (index + 1) % count == 1 by {
          assert index + 1 == count + 1;
        }
      }
    }
  }

  /** Who is chosen: an eligible member, and not one with the current name when there is a choice. */
  ghost predicate GoodChoice(nodes: seq<Co>, stat: seq<Status>, name: string, c: Co)
    requires |stat| == |nodes|
    reads nodes`name, c`name
  {
    (exists i :: 0 <= i < |nodes| && nodes[i] == c && (stat[i] == New || stat[i] == Waiting)) &&
    (NamesDiffer(nodes) && |Candidates(nodes, stat, |nodes|)| >= 2 ==> c.name != name)
  }

  lemma {:induction false} CandidatesDiffer(nodes: seq<Co>, stat: seq<Status>, k: nat)
    requires k <= |nodes| == |stat| && NamesDiffer(nodes)
    ensures NamesDiffer(Candidates(nodes, stat, k))
    decreases k
  {
    if k > 0 {
      CandidatesDiffer(nodes, stat, k - 1);
      var front := Candidates(nodes, stat, k - 1);
      forall i | 0 <= i < |front|
        ensures front[i].name != nodes[k - 1].name
      {
        CandidatesMembers(nodes, stat, k - 1, front[i]);
      }
    }
  }

  /** Candidate `index` is a good choice if it does not have the current name, or nothing else is left. */
  lemma ChoiceIsGood(nodes: seq<Co>, stat: seq<Status>, cs: seq<Co>, name: string, first: nat, index: nat)
    requires |stat| == |nodes| && cs == Candidates(nodes, stat, |nodes|) && first < |cs| && index < |cs|
    requires cs[first].name == name || first == index
    requires cs[first].name == name && |cs| >= 2 ==> index != first
    ensures GoodChoice(nodes, stat, name, cs[index])
  {
    CandidatesMembers(nodes, stat, |nodes|, cs[index]);
    if NamesDiffer(nodes) && |cs| >= 2 {
      CandidatesDiffer(nodes, stat, |nodes|);
      OtherName(cs, name, first, index);
    }
  }

  lemma OtherName(cs: seq<Co>, name: string, first: nat, index: nat)
    requires NamesDiffer(cs) && first < |cs| && index < |cs|
    requires cs[first].name == name || first == index
    requires cs[first].name == name ==> index != first
    ensures cs[index].name != name
  {
  }

  /** Who is drawn from the candidates: the one at the random position or, if that has the current name,
      the one two further on, or the other one of two. */
  ghost function Drawn(cs: seq<Co>, name: string, random: nat): Co
    requires cs != []
    reads cs`name
  {
    var r := random % |cs|;
    if cs[r].name != name then cs[r] else if |cs| == 2 then cs[1 - r] else cs[(r + 2) % |cs|]
  }

  lemma DrawnAt(cs: seq<Co>, name: string, i: nat)
    requires i < |cs| && cs[i].name != name
    ensures Drawn(cs, name, i) == cs[i]
  {
    assert i % |cs| == i;
  }

  /** Every NEW or WAITING member without the current name is drawn for some random value. */
  lemma EveryoneMayBeDrawn(nodes: seq<Co>, stat: seq<Status>, name: string, c: Co) returns (random: nat)
    requires |stat| == |nodes| && c.name != name
    requires exists i :: 0 <= i < |nodes| && nodes[i] == c && (stat[i] == New || stat[i] == Waiting)
    ensures var cs := Candidates(nodes, stat, |nodes|); cs != [] && Drawn(cs, name, random) == c
  {
    var cs := Candidates(nodes, stat, |nodes|);
    CandidatesMembers(nodes, stat, |nodes|, c);
    random :| 0 <= random < |cs| && cs[random] == c;
    DrawnAt(cs, name, random);
  }

  /** The second choice, when the first one is the current coroutine. */
  method PickAgain(poolHead: Co, first: nat, count: nat, ghost chain: seq<Co>) returns (c: Co, index: nat)
    requires BrotherChain(chain) && chain[0] == poolHead && |chain| == count + 1 && 1 <= first <= count
    ensures 1 <= index <= count && c == chain[index] && (count >= 2 ==> index != first)
    ensures index == if count == 2 then 3 - first else (first + 1) % count + 1
  {
    SecondTry(first, count);
    index := if count == 2 then count + 1 - first else (first + 1) % count + 1;
    c := Pick(poolHead, index, chain);
  }

  /** Pick at random, and once more if that is the current coroutine. */
  method Draw(candidate: Co, current: Co, poolHead: Co, random: nat, count: nat,
              ghost nodes: seq<Co>, ghost stat: seq<Status>, ghost chain: seq<Co>)
    requires |stat| == |nodes| && chain == [poolHead] + Candidates(nodes, stat, |nodes|)
    requires BrotherChain(chain) && |chain| == count + 1 && count > 0 && candidate !in chain
    modifies candidate`brother
    ensures candidate.brother != null && GoodChoice(nodes, stat, current.name, candidate.brother)
    ensures candidate.brother == Drawn(chain[1..], current.name, random)
  {
    var index := random % count + 1;
    var pool := Pick(poolHead, index, chain);
    candidate.brother := pool;
    ghost var first := index;
    if candidate.brother.name == current.name {
      pool, index := PickAgain(poolHead, index, count, chain);
      candidate.brother := pool;
    }
    ghost var cs := Candidates(nodes, stat, |nodes|);
    assert chain[first] == cs[first - 1] && chain[index] == cs[index - 1];
    ChoiceIsGood(nodes, stat, cs, current.name, first - 1, index - 1);
  }

  /** rand_choose: `random` is what rand() returns, `candidate` a node of the caller's that receives
      the choice in its brother link. */
  method Choose(head: Co, candidate: Co, current: Co, poolHead: Co, random: nat,
                ghost nodes: seq<Co>, ghost stat: seq<Status>)
    requires NextList(nodes) && HasStatus(nodes, stat) && nodes[0] == head
    requires poolHead !in nodes && candidate !in nodes && candidate != poolHead
    requires poolHead.brother == null && NoBrothers(nodes, 0)
    requires Candidates(nodes, stat, |nodes|) != []
    modifies nodes`brother, poolHead`brother, candidate`brother
    ensures candidate.brother != null && GoodChoice(nodes, stat, current.name, candidate.brother)
    ensures candidate.brother == Drawn(Candidates(nodes, stat, |nodes|), current.name, random)
    ensures poolHead.brother == null && NoBrothers(nodes, 0)
  {
    var count, chain := BuildPool(head, poolHead, nodes, stat);
    assert chain[1..] == Candidates(nodes, stat, |nodes|);
    Draw(candidate, current, poolHead, random, count, nodes, stat, chain);
    TearDown(poolHead, chain);
    NoneLeft(nodes, poolHead, chain);
  }

  lemma NoneLeft(nodes: seq<Co>, poolHead: Co, chain: seq<Co>)
    requires NoBrothers(chain, 0) && OthersAlone(nodes, chain) && chain != [] && chain[0] == poolHead
    ensures poolHead.brother == null && NoBrothers(nodes, 0)
  {
    assert chain[0].brother == null;
    forall i | 0 <= i < |nodes|
      ensures nodes[i].brother == null
    {
      if nodes[i] in chain {
        var j :| 0 <= j < |chain| && chain[j] == nodes[i];
        assert chain[j].brother == null;
      }
    }
  }
}
