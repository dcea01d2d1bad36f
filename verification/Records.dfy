/** Accepted records, and the one order a seal writes them in. */
module Records {
  import opened Common
  import opened Sequences

  newtype u64 = x: int | 0 <= x < 0x1_0000_0000_0000_0000

  datatype RecordKind = BoundaryEvent | GraphNode

  datatype Accepted = Accepted(
    instance: string,
    kind: RecordKind,
    gseq: u64,
    correlation: Option<string>,
    boundary: string,
    role: Option<string>,
    rawLine: string)

  type Key = (string, u64, RecordKind)

  function KeyOf(a: Accepted): Key {
    (a.instance, a.gseq, a.kind)
  }

  // ----- strings, character by character -----

  predicate StringLess(a: string, b: string) {
    b != [] && (a == [] || a[0] < b[0] || (a[0] == b[0] && StringLess(a[1..], b[1..])))
  }

  lemma {:induction false} StringOrder(a: string, b: string)
    ensures StringLess(a, b) || a == b || StringLess(b, a)
    ensures !(StringLess(a, b) && StringLess(b, a)) && !StringLess(a, a)
  {
    if a != [] && b != [] {
      StringOrder(a[1..], b[1..]);
      assert a == [a[0]] + a[1..] && b == [b[0]] + b[1..];
    }
    if a != [] {
      StringOrder(a[1..], a[1..]);
    }
  }

  lemma {:induction false} StringChain(a: string, b: string, c: string)
    requires StringLess(a, b) && StringLess(b, c)
    ensures StringLess(a, c)
  {
    if a != [] && a[0] == b[0] == c[0] {
      StringChain(a[1..], b[1..], c[1..]);
    }
  }

  function StringLe(): (string, string) -> bool {
    (a, b) => !StringLess(b, a)
  }

  lemma StringLeOrders()
    ensures TotalPreorder(StringLe())
    ensures forall a, b :: StringLe()(a, b) && StringLe()(b, a) ==> a == b
  {
    forall a: string, b: string ensures StringLe()(a, b) || StringLe()(b, a) {
      StringOrder(a, b);
    }
    forall a: string, b: string | StringLe()(a, b) && StringLe()(b, a) ensures a == b {
      StringOrder(a, b);
    }
    forall a: string, b: string, c: string | StringLe()(a, b) && StringLe()(b, c) ensures StringLe()(a, c) {
      StringOrder(a, b);
      StringOrder(b, c);
      StringOrder(a, c);
      if StringLess(a, b) && StringLess(b, c) {
        StringChain(a, b, c);
      }
    }
  }

  /** `a` comes before `b` as words do: at the first character where they differ, or where `a` ends. */
  ghost predicate LexBefore(a: string, b: string) {
    exists k: nat :: DiffersAt(a, b, k)
  }

  ghost predicate DiffersAt(a: string, b: string, k: nat) {
    k <= |a| && k < |b| && a[..k] == b[..k] && (k == |a| || a[k] < b[k])
  }

  lemma DiffersNext(a: string, b: string, k: nat)
    requires a != [] && b != [] && a[0] == b[0]
    ensures DiffersAt(a, b, k + 1) <==> DiffersAt(a[1..], b[1..], k)
  {
    if k < |a| && k < |b| {
      assert a[..k + 1] == [a[0]] + a[1..][..k] && b[..k + 1] == [b[0]] + b[1..][..k];
      assert a[1..][..k] == a[..k + 1][1..] && b[1..][..k] == b[..k + 1][1..];
    }
  }

  lemma DiffersLater(a: string, b: string, k: nat)
    requires DiffersAt(a, b, k)
    ensures k == 0 || (a != [] && b != [] && a[0] == b[0])
  {
    if k > 0 {
      assert a[..k][0] == b[..k][0];
    }
  }

  lemma {:induction false} StringLessIs(a: string, b: string)
    ensures StringLess(a, b) <==> LexBefore(a, b)
  {
    if a != [] && b != [] && a[0] == b[0] {
      StringLessIs(a[1..], b[1..]);
      if k: nat :| DiffersAt(a[1..], b[1..], k) {
        DiffersNext(a, b, k);
      }
      if k: nat :| DiffersAt(a, b, k) {
        assert k > 0;
        DiffersNext(a, b, k - 1);
      }
    } else {
      if StringLess(a, b) {
        assert DiffersAt(a, b, 0);
      }
      if k: nat :| DiffersAt(a, b, k) {
        DiffersLater(a, b, k);
      }
    }
  }

  // ----- seal order -----

  predicate KeyLess(a: Key, b: Key) {
    || StringLess(a.0, b.0)
    || (a.0 == b.0 && (a.1 < b.1 || (a.1 == b.1 && a.2.BoundaryEvent? && b.2.GraphNode?)))
  }

  /** `seal_order`: by instance, then sequence, then kind. */
  predicate SealLe(a: Accepted, b: Accepted) {
    !KeyLess(KeyOf(b), KeyOf(a))
  }

  function InSealOrder(): (Accepted, Accepted) -> bool {
    (a, b) => SealLe(a, b)
  }

  lemma KeyOrder(a: Key, b: Key)
    ensures KeyLess(a, b) || a == b || KeyLess(b, a)
    ensures !(KeyLess(a, b) && KeyLess(b, a)) && !KeyLess(a, a)
  {
    StringOrder(a.0, b.0);
    StringOrder(a.0, a.0);
  }

  lemma KeyChain(a: Key, b: Key, c: Key)
    requires !KeyLess(b, a) && !KeyLess(c, b)
    ensures !KeyLess(c, a)
  {
    StringOrder(a.0, b.0);
    StringOrder(b.0, c.0);
    StringOrder(a.0, c.0);
    if StringLess(a.0, b.0) && StringLess(b.0, c.0) {
      StringChain(a.0, b.0, c.0);
    }
  }

  /** Any two records compare, comparisons chain, and only records with the same key tie. */
  lemma SealOrderTotal()
    ensures TotalPreorder(InSealOrder())
    ensures forall a, b :: SealLe(a, b) && SealLe(b, a) ==> KeyOf(a) == KeyOf(b)
  {
    forall a, b ensures SealLe(a, b) || SealLe(b, a) {
      KeyOrder(KeyOf(a), KeyOf(b));
    }
    forall a, b | SealLe(a, b) && SealLe(b, a) ensures KeyOf(a) == KeyOf(b) {
      KeyOrder(KeyOf(a), KeyOf(b));
    }
    forall a, b, c | SealLe(a, b) && SealLe(b, c) ensures SealLe(a, c) {
      KeyChain(KeyOf(a), KeyOf(b), KeyOf(c));
    }
  }

  /** One record is sealed before another: by instance, then sequence, then boundary event before graph node. */
  ghost predicate SealedBefore(a: Accepted, b: Accepted) {
    || LexBefore(a.instance, b.instance)
    || (a.instance == b.instance && (a.gseq < b.gseq || (a.gseq == b.gseq && a.kind.BoundaryEvent? && b.kind.GraphNode?)))
  }

  /** Keys and their order are the three fields and theirs. */
  lemma SealOrderIs(a: Accepted, b: Accepted)
    ensures KeyLess(KeyOf(a), KeyOf(b)) <==> SealedBefore(a, b)
    ensures KeyOf(a) == KeyOf(b) <==> a.instance == b.instance && a.gseq == b.gseq && a.kind == b.kind
  {
    StringLessIs(a.instance, b.instance);
  }
}
