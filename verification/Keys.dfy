/** The string keys of the replication controller: volume keys, signatures and sync keys. */
module Keys {

  /** strconv.FormatInt of a non-negative number. */
  function Decimal(n: nat): (s: string)
    ensures s != "" && forall c :: c in s ==> '0' <= c <= '9'
  {
    var digit := ['0' + (n % 10) as char];
    if n < 10 then digit else Decimal(n / 10) + digit
  }

  lemma {:induction false} DecimalInjective(m: nat, n: nat)
    requires Decimal(m) == Decimal(n)
    ensures m == n
    decreases m
  {
    var a, b := Decimal(m), Decimal(n);
    assert a[|a| - 1] == '0' + (m % 10) as char && b[|b| - 1] == '0' + (n % 10) as char;
    assert m % 10 == n % 10;
    assert m >= 10 <==> |a| > 1;
    assert n >= 10 <==> |b| > 1;
    if m >= 10 && n >= 10 {
      assert Decimal(m / 10) == a[..|a| - 1] && Decimal(n / 10) == b[..|b| - 1];
      DecimalInjective(m / 10, n / 10);
    }
  }

  ghost predicate ColonFree(s: string) { ':' !in s }

  /** A colon-free head is found again in front of the first colon. */
  lemma HeadOfColon(a: string, b: string, x: string, y: string)
    requires ColonFree(a) && ColonFree(b)
    requires a + ":" + x <= b + ":" + y || b + ":" + y == a + ":" + x
    ensures a == b && x <= y
  {
    var s, t := a + ":" + x, b + ":" + y;
    assert s[|a|] == ':' && t[|b|] == ':';
    assert forall i :: 0 <= i < |s| ==> s[i] == t[i];
    assert (forall i :: 0 <= i < |a| ==> s[i] == a[i]) && (forall i :: 0 <= i < |b| ==> t[i] == b[i]);
    assert a == s[..|a|] == t[..|a|] == b;
    assert x == s[|a| + 1..] && y == t[|a| + 1..];
  }

  function Signature(epoch: nat, sig: string): string { "epoch=" + Decimal(epoch) + ":" + sig }

  lemma SignatureInjective(e1: nat, s1: string, e2: nat, s2: string)
    requires Signature(e1, s1) == Signature(e2, s2)
    ensures e1 == e2 && s1 == s2
  {
    var a, b := "epoch=" + Decimal(e1), "epoch=" + Decimal(e2);
    assert ColonFree("epoch=");
    HeadOfColon(a, b, s1, s2);
    HeadOfColon(b, a, s2, s1);
    assert Decimal(e1) == a[6..] && Decimal(e2) == b[6..];
    DecimalInjective(e1, e2);
  }

  function SyncKey(key: string, suffix: string): string { key + ":" + suffix }

  /** The prefix test of the source, exact on colon-free volume keys. */
  predicate OfVolume(syncKey: string, key: string) { key + ":" <= syncKey }

  lemma OfVolumeExact(k1: string, suffix: string, k2: string)
    requires ColonFree(k1) && ColonFree(k2)
    ensures OfVolume(SyncKey(k1, suffix), k2) <==> k1 == k2
  {
    if OfVolume(SyncKey(k1, suffix), k2) {
      var t := SyncKey(k1, suffix);
      assert k2 + ":" + "" == k2 + ":";
      HeadOfColon(k2, k1, "", suffix);
    }
  }

  /** A sync key belongs to one volume. */
  lemma OfVolumeUnique(syncKey: string, k1: string, k2: string)
    requires ColonFree(k1) && ColonFree(k2) && OfVolume(syncKey, k1) && OfVolume(syncKey, k2)
    ensures k1 == k2
  {
    var suffix := syncKey[|k1| + 1..];
    assert syncKey == SyncKey(k1, suffix);
    OfVolumeExact(k1, suffix, k2);
  }

  lemma SyncKeyInjective(k1: string, x1: string, k2: string, x2: string)
    requires ColonFree(k1) && ColonFree(k2) && SyncKey(k1, x1) == SyncKey(k2, x2)
    ensures k1 == k2 && x1 == x2
  {
    HeadOfColon(k1, k2, x1, x2);
    HeadOfColon(k2, k1, x2, x1);
  }
}
