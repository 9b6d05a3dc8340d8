/**
 The SSE hub: per runner a list of bounded channels, one for each open stream.

 `Offer` and `OfferAll` say what a non-blocking send does to buffers; the dispatch model
 uses the same functions. A channel remembers, as ghost history, everything that was offered
 to it and everything its stream has taken out.
 */
module Hub {
  import opened Common

  const CAPACITY: nat := 10

  /** `select { case ch <- e: default: }` on a channel whose buffer is `buffer`. */
  function Offer<T>(buffer: seq<T>, e: T): seq<T>
  {
    if |buffer| < CAPACITY then buffer + [e] else buffer
  }

  function OfferAll<T>(buffers: seq<seq<T>>, e: T): (r: seq<seq<T>>)
    ensures |r| == |buffers|
  {
    if buffers == [] then []
    else OfferAll(buffers[..|buffers| - 1], e) + [Offer(buffers[|buffers| - 1], e)]
  }

  lemma {:induction false} OfferAllAt<T>(buffers: seq<seq<T>>, e: T, i: nat)
    requires i < |buffers|
    ensures OfferAll(buffers, e)[i] == if |buffers[i]| < 10 then buffers[i] + [e] else buffers[i]
  {
    if i == |buffers| - 1 {
    } else {
      OfferAllAt(buffers[..|buffers| - 1], e, i);
    }
  }

  lemma OfferedEach<T>(before: seq<seq<T>>, after: seq<seq<T>>, e: T)
    requires |after| == |before| && forall k :: 0 <= k < |before| ==> after[k] == Offer(before[k], e)
    ensures after == OfferAll(before, e)
  {
    forall k: nat | k < |before| ensures after[k] == OfferAll(before, e)[k] {
      OfferAllAt(before, e, k);
    }
  }

  /** `s` without the first occurrence of `x`. */
  function Without<T(==)>(s: seq<T>, x: T): seq<T>
  {
    if s == [] then [] else if s[0] == x then s[1..] else [s[0]] + Without(s[1..], x)
  }

  lemma {:induction false} WithoutAt<T>(s: seq<T>, x: T, i: nat)
    requires i < |s| && s[i] == x && x !in s[..i]
    ensures Without(s, x) == s[..i] + s[i + 1..]
  {
    if i == 0 {
    } else {
      assert s[0] == s[..i][0] && s[..i][1..] == s[1..][..i - 1];
      WithoutAt(s[1..], x, i - 1);
      assert s[..i] == [s[0]] + s[1..][..i - 1];
    }
  }

  lemma {:induction false} WithoutAbsent<T>(s: seq<T>, x: T)
    requires x !in s
    ensures Without(s, x) == s
  {
    if s == [] {
    } else {
      WithoutAbsent(s[1..], x);
    }
  }

  // ----- connection tables -----

  function Members<C>(m: map<string, seq<C>>): set<C>
  {
    set slug, i | slug in m && 0 <= i < |m[slug]| :: m[slug][i]
  }

  function Listed<C>(m: map<string, seq<C>>, slug: string): seq<C>
  {
    if slug in m then m[slug] else []
  }

  /** Every entry stands at one place only. */
  ghost predicate Distinct<C>(m: map<string, seq<C>>)
  {
    forall s, i, t, j ::
      (s in m && t in m && 0 <= i < |m[s]| && 0 <= j < |m[t]| && m[s][i] == m[t][j]) ==> (s == t && i == j)
  }

  lemma AppendMember<C>(m: map<string, seq<C>>, slug: string, c: C)
    requires Distinct(m) && c !in Members(m)
    ensures Distinct(m[slug := Listed(m, slug) + [c]])
    ensures Members(m[slug := Listed(m, slug) + [c]]) == Members(m) + {c}
  {
    var n := m[slug := Listed(m, slug) + [c]];
    assert n[slug][|Listed(m, slug)|] == c;
    forall x | x in Members(m) ensures x in Members(n) {
      var s, i :| s in m && 0 <= i < |m[s]| && m[s][i] == x;
      assert n[s][i] == x;
    }
    assert forall s, i :: s in n && 0 <= i < |n[s]| ==>
        (n[s][i] == c && s == slug && i == |Listed(m, slug)|) || (s in m && i < |m[s]| && n[s][i] == m[s][i]);
  }

  lemma RemoveMember<C>(m: map<string, seq<C>>, slug: string, i: nat)
    requires Distinct(m) && slug in m && i < |m[slug]|
    ensures Distinct(m[slug := m[slug][..i] + m[slug][i + 1..]])
    ensures Members(m[slug := m[slug][..i] + m[slug][i + 1..]]) == Members(m) - {m[slug][i]}
  {
    var n := m[slug := m[slug][..i] + m[slug][i + 1..]];
    forall s, k | s in n && 0 <= k < |n[s]|
      ensures n[s][k] == m[s][if s == slug && k >= i then k + 1 else k]
    {
    }
    forall x | x in Members(m) && x != m[slug][i] ensures x in Members(n) {
      var s, k :| s in m && 0 <= k < |m[s]| && m[s][k] == x;
      assert n[s][if s == slug && k > i then k - 1 else k] == x;
    }
  }

  lemma DropEmpty<C>(m: map<string, seq<C>>, slug: string)
    requires Distinct(m) && slug in m && m[slug] == []
    ensures Distinct(m - {slug}) && Members(m - {slug}) == Members(m)
  {
    var n := m - {slug};
    assert forall s :: s in n ==> n[s] == m[s];
    forall x | x in Members(m) ensures x in Members(n) {
      var s, k :| s in m && 0 <= k < |m[s]| && m[s][k] == x;
      assert s in n && n[s][k] == x;
    }
  }

  class Channel<T(==)> {
    var buffer: seq<T>
    var open: bool
    ghost var offered: seq<T>
    ghost var received: seq<T>
    ghost var overflowed: bool

    /** Nothing is invented or reordered, and nothing is missing unless the buffer was once full. */
    ghost predicate Valid()
      reads this
    {
      && |buffer| <= CAPACITY
      && IsSubsequence(received + buffer, offered)
      && (!overflowed ==> received + buffer == offered)
    }

    constructor ()
      ensures Valid() && open && buffer == [] && offered == [] && received == [] && !overflowed
    {
      buffer, open := [], true;
      offered, received, overflowed := [], [], false;
    }

    /** A non-blocking send; Go panics on a closed channel. */
    method TrySend(e: T)
      requires Valid() && open
      modifies this
      ensures Valid() && open
      ensures buffer == (if |old(buffer)| < 10 then old(buffer) + [e] else old(buffer)) && received == old(received)
      ensures offered == old(offered) + [e]
      ensures overflowed == (old(overflowed) || |old(buffer)| == 10)
    {
      if |buffer| < CAPACITY {
        SubsequenceKeep(received + buffer, offered, e);
        assert received + (buffer + [e]) == received + buffer + [e];
        buffer := buffer + [e];
      } else {
        SubsequenceDrop(received + buffer, offered, e);
        overflowed := true;
      }
      offered := offered + [e];
    }

    /** The stream takes the oldest buffered event; it blocks while there is none. */
    method Receive() returns (e: T)
      requires Valid() && buffer != []
      modifies this
      ensures Valid() && open == old(open)
      ensures [e] + buffer == old(buffer) && received == old(received) + [e]
      ensures offered == old(offered) && overflowed == old(overflowed)
    {
      e := buffer[0];
      assert received + [e] + buffer[1..] == received + buffer;
      received := received + [e];
      buffer := buffer[1..];
    }

    method Close()
      modifies this
      ensures !open && buffer == old(buffer) && offered == old(offered) && received == old(received)
      ensures overflowed == old(overflowed)
    {
      open := false;
    }
  }

  class Hub<T(==)> {
    var connections: map<string, seq<Channel<T>>>

    ghost function Channels(): set<Channel<T>>
      reads this
    {
      Members(connections)
    }

    function At(slug: string): seq<Channel<T>>
      reads this
    {
      Listed(connections, slug)
    }

    ghost function Buffers(slug: string): seq<seq<T>>
      reads this, At(slug)
    {
      seq(|At(slug)|, i requires 0 <= i < |At(slug)| reads this, At(slug) => At(slug)[i].buffer)
    }

    /** The buffers of all runners that have a stream. */
    ghost function AllBuffers(): map<string, seq<seq<T>>>
      reads this, Channels()
    {
      map slug | slug in connections :: Buffers(slug)
    }

    /** Registered channels are distinct, open and valid; no runner has an empty list. */
    ghost predicate Valid()
      reads this, Channels()
    {
      && (forall slug :: slug in connections ==> connections[slug] != [])
      && Distinct(connections)
      && (forall ch :: ch in Channels() ==> ch.open && ch.Valid())
    }

    constructor ()
      ensures Valid() && connections == map[]
    {
      connections := map[];
    }

    method Register(slug: string) returns (ch: Channel<T>)
      requires Valid()
      modifies this
      ensures Valid()
      ensures fresh(ch) && ch.open && ch.buffer == [] && ch.offered == []
      ensures connections == old(connections)[slug := old(At(slug)) + [ch]]
    {
      ch := new Channel();
      AppendMember(connections, slug, ch);
      connections := connections[slug := At(slug) + [ch]];
    }

    /**
     Closes and removes `ch` where it is registered under `slug`; the others keep their order.
     Unregistering twice, or under another runner, does nothing.
     */
    method Unregister(slug: string, ch: Channel<T>)
      requires Valid()
      modifies this, ch
      ensures Valid()
      ensures At(slug) == Without(old(At(slug)), ch)
      ensures slug in connections <==> Without(old(At(slug)), ch) != []
      ensures forall s :: s != slug ==> (s in connections <==> s in old(connections))
      ensures forall s :: s != slug && s in connections ==> connections[s] == old(connections[s])
      ensures ch.open == (old(ch.open) && ch !in old(At(slug)))
      ensures ch.buffer == old(ch.buffer) && ch.offered == old(ch.offered) && ch.received == old(ch.received)
    {
      var conns := At(slug);
      var i := 0;
      while i < |conns|
        invariant 0 <= i <= |conns|
        invariant ch !in conns[..i]
        invariant connections == old(connections) && ch.open == old(ch.open)
        invariant unchanged(this) && unchanged(ch)
      {
        if conns[i] == ch {
          ch.Close();
          WithoutAt(conns, ch, i);
          RemoveMember(connections, slug, i);
          connections := connections[slug := conns[..i] + conns[i + 1..]];
          break;
        }
        i := i + 1;
      }
      if i == |conns| {
        WithoutAbsent(conns, ch);
      }
      if |At(slug)| == 0 {
        if slug in connections {
          DropEmpty(connections, slug);
        } else {
          assert connections - {slug} == connections;
        }
        connections := connections - {slug};
      }
    }

    /** What changes in the channels of one runner cannot be seen in those of another. */
    twostate lemma OthersKept(slug: string)
      requires Distinct(connections) && connections == old(connections)
      requires forall ch :: ch in Channels() && ch !in At(slug) ==> ch in old(Channels()) && unchanged(ch)
      ensures forall other :: other != slug ==> Buffers(other) == old(Buffers(other))
    {
      forall other | other != slug ensures Buffers(other) == old(Buffers(other)) {
        forall ch | ch in At(other) ensures ch.buffer == old(ch.buffer) {
          assert ch in Channels() && ch !in At(slug);
        }
      }
    }

    /** The loop of Send. */
    method OfferEach(slug: string, e: T)
      requires Valid()
      modifies At(slug)
      ensures Valid() && connections == old(connections)
      ensures Buffers(slug) == OfferAll(old(Buffers(slug)), e)
      ensures forall ch :: ch in At(slug) ==>
                ch.offered == old(ch.offered) + [e] && ch.received == old(ch.received)
                && ch.overflowed == (old(ch.overflowed) || |old(ch.buffer)| == 10)
    {
      var conns := At(slug);
      for i := 0 to |conns|
        invariant connections == old(connections)
        invariant forall k :: i <= k < |conns| ==> unchanged(conns[k])
        invariant forall k :: 0 <= k < i ==>
                    conns[k].open && conns[k].Valid() && conns[k].buffer == Offer(old(conns[k].buffer), e)
                    && conns[k].offered == old(conns[k].offered) + [e] && conns[k].received == old(conns[k].received)
                    && conns[k].overflowed == (old(conns[k].overflowed) || |old(conns[k].buffer)| == CAPACITY)
      {
        assert conns[i] in old(Channels());
        conns[i].TrySend(e);
      }
      OfferedEach(old(Buffers(slug)), Buffers(slug), e);
    }

    /** Offers `e` to every channel of the runner; true if there is one, even if all were full. */
    method Send(slug: string, e: T) returns (sent: bool)
      requires Valid()
      modifies At(slug)
      ensures Valid() && connections == old(connections)
      ensures sent <==> At(slug) != []
      ensures Buffers(slug) == OfferAll(old(Buffers(slug)), e)
      ensures forall other :: other != slug ==> Buffers(other) == old(Buffers(other))
      ensures forall ch :: ch in At(slug) ==>
                ch.offered == old(ch.offered) + [e] && ch.received == old(ch.received)
                && ch.overflowed == (old(ch.overflowed) || |old(ch.buffer)| == 10)
    {
      sent := |At(slug)| > 0;
      if sent {
        OfferEach(slug, e);
      }
      OthersKept(slug);
    }
  }
}
