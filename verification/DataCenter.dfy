/** Which data center an address belongs to: the one with the longest configured prefix of it,
    found by probing an ordered map. */
module DataCenter {
  import opened Bytes
  import opened Options

  /** Strings without a zero byte, which strncmp would stop at. */
  predicate CString(s: seq<byte>) { NUL !in s }

  // ----- the order of strings ------------------------------------------------------------------

  /** Where two strings first differ, or the shorter one ends. */
  function Common(s: seq<byte>, t: seq<byte>): (n: nat)
    ensures n <= |s| && n <= |t| && s[..n] == t[..n]
    ensures n < |s| && n < |t| ==> s[n] != t[n]
  {
    if s == [] || t == [] || s[0] != t[0] then 0 else
    var n := 1 + Common(s[1..], t[1..]);
    assert s[..n] == [s[0]] + s[1..][..n - 1] && t[..n] == [t[0]] + t[1..][..n - 1];
    n
  }

  /** operator< */
  predicate Less(s: seq<byte>, t: seq<byte>)
  {
    var n := Common(s, t);
    if n < |s| && n < |t| then s[n] < t[n] else |s| < |t|
  }

  lemma CommonIs(s: seq<byte>, t: seq<byte>, n: nat)
    requires n <= |s| && n <= |t| && s[..n] == t[..n] && (n < |s| && n < |t| ==> s[n] != t[n])
    ensures Common(s, t) == n
  {
    var m := Common(s, t);
    forall i | 0 <= i < n ensures s[i] == t[i] { assert s[i] == s[..n][i] && t[i] == t[..n][i]; }
    forall i | 0 <= i < m ensures s[i] == t[i] { assert s[i] == s[..m][i] && t[i] == t[..m][i]; }
  }

  lemma Trichotomy(s: seq<byte>, t: seq<byte>)
    ensures Less(s, t) || s == t || Less(t, s)
    ensures !(Less(s, t) && Less(t, s)) && !Less(s, s)
  {
    var n := Common(s, t);
    CommonIs(t, s, n);
    CommonIs(s, s, |s|);
    assert n == |s| == |t| ==> s == t by { if n == |s| == |t| { assert s[..n] == s && t[..n] == t; } }
  }

  lemma Transitive(s: seq<byte>, t: seq<byte>, u: seq<byte>)
    requires Less(s, t) && Less(t, u)
    ensures Less(s, u)
  {
    var a, b := Common(s, t), Common(t, u);
    var n := if a < b then a else b;
    assert s[..n] == s[..a][..n] == t[..a][..n] == t[..n] == t[..b][..n] == u[..b][..n] == u[..n];
    if a < b {
      assert a < |t| ==> t[a] == t[..b][a] == u[..b][a] == u[a];
    } else if b < a {
      assert b < |t| ==> t[b] == t[..a][b] == s[..a][b] == s[b];
    }
    CommonIs(s, u, n);
  }

  /** A prefix is not greater. */
  lemma PrefixNotGreater(k: seq<byte>, p: seq<byte>)
    requires k <= p
    ensures k == p || Less(k, p)
  {
    assert p[..|k|] == k == k[..|k|];
    CommonIs(k, p, |k|);
  }

  /** Whatever lies between a string and one of its extensions in the order extends it too. */
  lemma Interval(k: seq<byte>, q: seq<byte>, p: seq<byte>)
    requires k <= p && !Less(q, k) && !Less(p, q)
    ensures k <= q
  {
    Trichotomy(k, q);
    Trichotomy(q, p);
    if q != p && k != q {
      var a, b := Common(k, q), Common(q, p);
      assert p[..|k|] == k;
      if a < |k| {
        assert k[a] == p[a];
        if a < |q| {
          assert p[..a] == k[..a] == q[..a];
          CommonIs(q, p, a);
        }
      } else {
        assert q[..a] == k[..a] == k;
      }
    }
  }

  // ----- the ordered map ------------------------------------------------------------------------------

  datatype Entry = Entry(prefix: seq<byte>, dc: nat)

  ghost predicate Sorted(es: seq<Entry>)
  {
    forall i, j :: 0 <= i < j < |es| ==> Less(es[i].prefix, es[j].prefix)
  }

  /** String::commonPrefix */
  method CommonPrefix(p: seq<byte>, s: seq<byte>) returns (r: seq<byte>)
    ensures r == p[..Common(p, s)]
  {
    var cnt := 0;
    var len := if |p| < |s| then |p| else |s|;
    while cnt < len && p[cnt] == s[cnt]
      invariant cnt <= len && p[..cnt] == s[..cnt]
    {
      assert p[..cnt + 1] == p[..cnt] + [p[cnt]] && s[..cnt + 1] == s[..cnt] + [s[cnt]];
      cnt := cnt + 1;
    }
    CommonIs(p, s, cnt);
    r := p[..cnt];
  }

  /** The longest configured prefix of an address, by looking at all of them. */
  ghost predicate Longest(es: seq<Entry>, addr: seq<byte>, i: nat)
  {
    i < |es| && es[i].prefix <= addr && forall j :: 0 <= j < |es| && es[j].prefix <= addr ==>
        |es[j].prefix| <= |es[i].prefix|
  }

  class DataCenter {
    var mAddrDC: seq<Entry>      // the std::map, in the order of its keys

    ghost predicate Valid()
      reads this
    {
      Sorted(mAddrDC) && forall e :: e in mAddrDC ==> CString(e.prefix)
    }

    constructor ()
      ensures Valid() && mAddrDC == []
    {
      mAddrDC := [];
    }

    /** std::map::upper_bound */
    method UpperBound(p: seq<byte>) returns (it: nat)
      requires Valid()
      ensures it <= |mAddrDC|
      ensures forall i :: 0 <= i < it ==> !Less(p, mAddrDC[i].prefix)
      ensures forall i :: it <= i < |mAddrDC| ==> Less(p, mAddrDC[i].prefix)
    {
      it := 0;
      while it < |mAddrDC| && !Less(p, mAddrDC[it].prefix)
        invariant it <= |mAddrDC| && forall i :: 0 <= i < it ==> !Less(p, mAddrDC[i].prefix)
      {
        it := it + 1;
      }
      forall i | it < i < |mAddrDC| ensures Less(p, mAddrDC[i].prefix) {
        Transitive(p, mAddrDC[it].prefix, mAddrDC[i].prefix);
      }
    }

    /** init, for one address prefix: false if the prefix is there already. */
    method AddPrefix(prefix: seq<byte>, dc: nat) returns (ok: bool)
      requires Valid() && CString(prefix)
      modifies this
      ensures Valid() && (ok <==> forall e :: e in old(mAddrDC) ==> e.prefix != prefix)
      ensures forall e :: e in mAddrDC <==> e in old(mAddrDC) || (ok && e == Entry(prefix, dc))
    {
      hide Less;
      var it := UpperBound(prefix);
      ok := it == 0 || mAddrDC[it - 1].prefix != prefix;
      AddedOnce(prefix, it);
      if ok {
        forall i | 0 <= i < it ensures Less(mAddrDC[i].prefix, prefix) { Trichotomy(mAddrDC[i].prefix, prefix); }
        mAddrDC := mAddrDC[..it] + [Entry(prefix, dc)] + mAddrDC[it..];
      }
    }

    /** Only the entry before upper_bound can have the prefix itself. */
    lemma AddedOnce(prefix: seq<byte>, it: nat)
      requires Valid() && it <= |mAddrDC|
      requires forall i :: 0 <= i < it ==> !Less(prefix, mAddrDC[i].prefix)
      requires forall i :: it <= i < |mAddrDC| ==> Less(prefix, mAddrDC[i].prefix)
      ensures (it == 0 || mAddrDC[it - 1].prefix != prefix) <==> forall e :: e in mAddrDC ==> e.prefix != prefix
    {
      forall i | 0 <= i < |mAddrDC| && i != it - 1 ensures mAddrDC[i].prefix != prefix {
        Trichotomy(prefix, mAddrDC[i].prefix);
        if i < it - 1 { assert Less(mAddrDC[i].prefix, mAddrDC[it - 1].prefix); }
      }
      if it > 0 { assert mAddrDC[it - 1] in mAddrDC; }
    }

    /** getDC: the entry of the longest configured prefix, or none iff there is none. */
    method GetDC(addr: seq<byte>) returns (dc: Option<nat>)
      requires Valid() && CString(addr)
      ensures dc == None <==> forall e :: e in mAddrDC ==> !(e.prefix <= addr)
      ensures dc.Some? ==> exists i: nat :: Longest(mAddrDC, addr, i) && mAddrDC[i].dc == dc.value
    {
      hide Less, Common;
      var p := addr;
      while true
        invariant p <= addr && forall e :: e in mAddrDC && e.prefix <= addr ==> e.prefix <= p
        decreases |p|
      {
        var it := UpperBound(p);
        if it == 0 {
          forall e | e in mAddrDC ensures !(e.prefix <= addr) {
            if e.prefix <= p { PrefixNotGreater(e.prefix, p); Trichotomy(e.prefix, p); }
          }
          return None;
        }
        var e := mAddrDC[it - 1];
        Probe(p, addr, it);
        if e.prefix <= p {
          assert Longest(mAddrDC, addr, it - 1);
          return Some(e.dc);
        }
        p := CommonPrefix(p, e.prefix);
      }
    }

    /** The entry before upper_bound(p): every configured prefix of p is a prefix of it. */
    lemma {:induction false} Probe(p: seq<byte>, addr: seq<byte>, it: nat)
      requires Valid() && 0 < it <= |mAddrDC| && p <= addr
      requires forall i :: 0 <= i < it ==> !Less(p, mAddrDC[i].prefix)
      requires forall i :: it <= i < |mAddrDC| ==> Less(p, mAddrDC[i].prefix)
      ensures forall e :: e in mAddrDC && e.prefix <= p ==>
              e.prefix <= mAddrDC[it - 1].prefix && e.prefix <= p[..Common(p, mAddrDC[it - 1].prefix)]
      ensures !(mAddrDC[it - 1].prefix <= p) ==> Common(p, mAddrDC[it - 1].prefix) < |p|
    {
      hide Less, Common;
      var q := mAddrDC[it - 1].prefix;
      forall i | 0 <= i < |mAddrDC| && mAddrDC[i].prefix <= p
        ensures mAddrDC[i].prefix <= q && mAddrDC[i].prefix <= p[..Common(p, q)]
      {
        var k := mAddrDC[i].prefix;
        PrefixNotGreater(k, p);
        Trichotomy(k, p);
        Trichotomy(q, k);
        Interval(k, q, p);
        Both(k, p, q);
      }
      if Common(p, q) == |p| { WholeCommon(p, q); }
    }
  }

  lemma WholeCommon(p: seq<byte>, q: seq<byte>)
    requires Common(p, q) == |p|
    ensures p == q || Less(p, q)
  {
    assert q[..|p|] == p[..|p|] == p;
    PrefixNotGreater(p, q);
  }

  lemma Both(k: seq<byte>, p: seq<byte>, q: seq<byte>)
    requires k <= p && k <= q
    ensures k <= p[..Common(p, q)]
  {
    var n := Common(p, q);
    assert forall i :: 0 <= i < |k| ==> p[i] == k[i] && q[i] == k[i];
  }
}
