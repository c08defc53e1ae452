/** The lexer configuration: a doubly linked list of scanners, kept in priority order. */
module LexerConfigs {
  class ScannerConfig {
    const code: string
    const priority: int
    ghost const age: nat
    var prev: ScannerConfig?
    var next: ScannerConfig?

    constructor (code: string, priority: int, ghost age: nat)
      ensures this.code == code && this.priority == priority && this.age == age
      ensures prev == null && next == null
    {
      this.code, this.priority, this.age := code, priority, age;
      prev, next := null, null;
    }

    /** Higher priority first; among equals the one added first. */
    ghost predicate Before(other: ScannerConfig) {
      priority > other.priority || (priority == other.priority && age < other.age)
    }
  }

  /** The first place whose scanner has a lower priority. */
  function Slot(order: seq<ScannerConfig>, priority: int): (k: nat)
    ensures k <= |order|
    ensures forall i :: 0 <= i < k ==> order[i].priority >= priority
    ensures k < |order| ==> order[k].priority < priority
  {
    if order == [] || order[0].priority < priority then 0 else 1 + Slot(order[1..], priority)
  }

  ghost function Inserted(order: seq<ScannerConfig>, scanner: ScannerConfig): seq<ScannerConfig> {
    var k := Slot(order, scanner.priority);
    order[..k] + [scanner] + order[k..]
  }

  ghost predicate Ordered(order: seq<ScannerConfig>) {
    forall i, j :: 0 <= i < j < |order| ==> order[i].Before(order[j])
  }

  /** A newcomer goes behind everything of its own priority or higher and in front of the rest. */
  lemma InsertedOrdered(order: seq<ScannerConfig>, scanner: ScannerConfig)
    requires Ordered(order) && forall i :: 0 <= i < |order| ==> order[i].age < scanner.age
    ensures Ordered(Inserted(order, scanner))
  {
    var k := Slot(order, scanner.priority);
    var after := Inserted(order, scanner);
    forall i, j | 0 <= i < j < |after| ensures after[i].Before(after[j]) {
      if i == k {
        assert j - 1 == k || order[k].Before(order[j - 1]);
      } else if j == k {
        assert order[i].age < scanner.age;
      } else {
        var a, b := if i < k then i else i - 1, if j < k then j else j - 1;
        assert order[a].Before(order[b]);
      }
    }
  }

  /** The scanner at a place, with none before the first and behind the last. */
  function At(order: seq<ScannerConfig>, i: int): ScannerConfig? {
    if 0 <= i < |order| then order[i] else null
  }

  lemma AtInserted(order: seq<ScannerConfig>, scanner: ScannerConfig, i: int)
    ensures var k, after := Slot(order, scanner.priority), Inserted(order, scanner);
            && |after| == |order| + 1
            && k <= |order|
            && At(after, k) == after[k] == scanner
            && (i < k ==> At(after, i) == At(order, i))
            && (i >= k ==> At(after, i + 1) == At(order, i))
            && (0 <= i < k ==> after[i] == order[i])
            && (k <= i < |order| ==> after[i + 1] == order[i])
  {
  }

  lemma AtOne(order: seq<ScannerConfig>, i: int)
    ensures At(order, i) == if 0 <= i < |order| then order[i] else null
  {
  }

  ghost predicate Fresh(order: seq<ScannerConfig>, scanner: ScannerConfig) {
    && scanner.age == |order|
    && (forall i :: 0 <= i < |order| ==> order[i].code != scanner.code)
  }

  /** What holds of a configuration's scanners, apart from how they are linked. */
  ghost predicate Proper(order: seq<ScannerConfig>) {
    && Ordered(order)
    && (forall i :: 0 <= i < |order| ==> order[i].age < |order|)
    && (forall i, j :: 0 <= i < j < |order| ==> order[i].code != order[j].code)
  }

  lemma InsertedProper(order: seq<ScannerConfig>, scanner: ScannerConfig)
    requires Proper(order) && Fresh(order, scanner)
    ensures Proper(Inserted(order, scanner))
  {
    InsertedOrdered(order, scanner);
    var k := Slot(order, scanner.priority);
    var after := Inserted(order, scanner);
    forall i, j | 0 <= i < j < |after| ensures after[i].code != after[j].code {
      var a, b := if i < k then i else i - 1, if j < k then j else j - 1;
      if i != k && j != k { assert order[a].code != order[b].code; }
    }
  }

  class LexerConfig {
    var scanners: ScannerConfig?
    var numScanners: nat
    ghost var order: seq<ScannerConfig>

    ghost predicate Linked()
      reads this, order
    {
      && numScanners == |order|
      && scanners == At(order, 0)
      && (forall i :: 0 <= i < |order| ==> order[i].prev == At(order, i - 1) && order[i].next == At(order, i + 1))
    }

    ghost predicate Valid()
      reads this, order
    {
      Linked() && Proper(order)
    }

    constructor ()
      ensures Valid() && order == []
    {
      scanners, numScanners, order := null, 0, [];
    }

    /** The scanner goes in front of the first one with a lower priority. */
    method AddScanner(code: string, priority: int) returns (scanner: ScannerConfig)
      requires Valid()
      requires forall i :: 0 <= i < |order| ==> order[i].code != code
      modifies this, order
      ensures Valid()
      ensures fresh(scanner) && scanner.code == code && scanner.priority == priority
      ensures order == Inserted(old(order), scanner)
    {
      scanner := new ScannerConfig(code, priority, numScanners);
      var prev, next := FindSlot(priority);
      InsertedProper(order, scanner);
      LinkIn(scanner, prev, next);
    }

    /** The neighbours of the place for a scanner of this priority. */
    method FindSlot(priority: int) returns (prev: ScannerConfig?, next: ScannerConfig?)
      requires Valid()
      ensures var k := Slot(order, priority); prev == At(order, k - 1) && next == At(order, k)
    {
      next, prev := scanners, null;
      ghost var k := 0;
      while next != null && next.priority >= priority
        invariant 0 <= k <= |order|
        invariant next == At(order, k) && prev == At(order, k - 1)
        invariant forall i :: 0 <= i < k ==> order[i].priority >= priority
        decreases |order| - k
      {
        prev := next;
        next := next.next;
        k := k + 1;
      }
      assert k == Slot(order, priority);
    }

    method LinkIn(scanner: ScannerConfig, prev: ScannerConfig?, next: ScannerConfig?)
      requires Linked() && scanner !in order
      requires forall i, j :: 0 <= i < j < |order| ==> order[i] != order[j]
      requires var k := Slot(order, scanner.priority); prev == At(order, k - 1) && next == At(order, k)
      modifies this, order, scanner
      ensures Linked() && order == Inserted(old(order), scanner)
    {
      hide Slot, At, Inserted;
      ghost var was, k: int := order, Slot(order, scanner.priority);
      AtOne(was, k - 1);
      AtOne(was, k);
      Splice(scanner, prev, next, k);
      assert order == was;
      assert forall i :: 0 <= i < |order| && i != k - 1 ==> order[i].next == At(order, i + 1);
      order := Inserted(was, scanner);
      AtInserted(was, scanner, 0);
      AtInserted(was, scanner, k);
      forall i | 0 <= i < |order|
        ensures order[i].prev == At(order, i - 1)
        ensures order[i].next == At(order, i + 1)
      {
        AtInserted(was, scanner, i - 2);
        AtInserted(was, scanner, i - 1);
        AtInserted(was, scanner, i);
        AtInserted(was, scanner, i + 1);
        if i < k {
          assert order[i] == was[i];
          assert i != k - 1 ==> was[i].next == At(was, i + 1);
        } else if i > k {
          var j := i - 1;
          assert order[i] == was[j];
          assert was[j].next == At(was, j + 1);
          assert j != k ==> was[j].prev == At(was, j - 1);
        }
      }
    }

    /** The neighbours of place `k` come to point at the scanner, and it at them. */
    method Splice(scanner: ScannerConfig, prev: ScannerConfig?, next: ScannerConfig?, ghost k: nat)
      requires Linked() && scanner !in order && k <= |order|
      requires forall i, j :: 0 <= i < j < |order| ==> order[i] != order[j]
      requires prev == (if k == 0 then null else order[k - 1]) && next == (if k == |order| then null else order[k])
      modifies `scanners, `numScanners, scanner, prev, next
      ensures scanners == (if k == 0 then scanner else old(scanners)) && numScanners == old(numScanners) + 1
      ensures scanner.prev == prev && scanner.next == next
      ensures next != null ==> next.prev == scanner
      ensures prev != null ==> prev.next == scanner
      ensures forall i :: 0 <= i < |order| && i != k - 1 ==> order[i].next == At(order, i + 1)
      ensures forall i :: 0 <= i < |order| && i != k ==> order[i].prev == At(order, i - 1)
    {
      hide At, Slot, Inserted;
      AtOne(order, k - 1);
      AtOne(order, 0);
      scanner.next := next;
      scanner.prev := prev;
      if next != null {
        scanner.prev := next.prev;
        next.prev := scanner;
      }
      if prev != null {
        prev.next := scanner;
      } else {
        scanners := scanner;
      }
      numScanners := numScanners + 1;
    }

    method GetScanner(code: string) returns (scanner: ScannerConfig?)
      requires Valid()
      ensures scanner != null ==> scanner in order && scanner.code == code
      ensures scanner == null ==> forall i :: 0 <= i < |order| ==> order[i].code != code
    {
      scanner := scanners;
      ghost var k := 0;
      while scanner != null && scanner.code != code
        invariant 0 <= k <= |order| && scanner == At(order, k)
        invariant forall i :: 0 <= i < k ==> order[i].code != code
        decreases |order| - k
      {
        scanner := scanner.next;
        k := k + 1;
      }
    }

    /** A scanner is added once: setting it again leaves the order alone. */
    method Set(code: string, priority: int) returns (scanner: ScannerConfig)
      requires Valid()
      modifies this, order
      ensures Valid()
      ensures scanner in order && scanner.code == code
      ensures if exists i :: 0 <= i < |old(order)| && old(order)[i].code == code then order == old(order)
              else order == Inserted(old(order), scanner) && scanner.priority == priority
    {
      var found := GetScanner(code);
      if found != null {
        scanner := found;
      } else {
        scanner := AddScanner(code, priority);
        assert order[Slot(old(order), priority)] == scanner;
      }
    }
  }
}
