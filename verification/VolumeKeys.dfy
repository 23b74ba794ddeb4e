/** The keys of the volume table as the texts that `build_volumes` prints. */
module VolumeKeys {
  import opened Text
  import opened Volumes

  /** `{}` of a number. */
  function Decimal(n: nat): (d: string)
    ensures d != "" && forall c :: c in d ==> '0' <= c <= '9'
  {
    (if n < 10 then "" else Decimal(n / 10)) + [('0' as int + n % 10) as char]
  }

  /** The text that stands for a key in the code's table. */
  function KeyText(e: DiskEntry): string {
    if e.device == "" then "size:" + (Decimal(e.total) + ":" + Decimal(e.available)) else "dev:" + e.device
  }

  lemma {:induction false} DecimalIsExact(m: nat, n: nat)
    requires Decimal(m) == Decimal(n)
    ensures m == n
  {
    var d, e := Decimal(m), Decimal(n);
    assert d[|d| - 1] as int - '0' as int == m % 10 && e[|e| - 1] as int - '0' as int == n % 10;
    assert d[..|d| - 1] == if m < 10 then "" else Decimal(m / 10);
    assert e[..|e| - 1] == if n < 10 then "" else Decimal(n / 10);
    if m >= 10 && n >= 10 {
      DecimalIsExact(m / 10, n / 10);
    }
  }

  lemma SizesAreExact(a: string, b: string, c: string, d: string)
    requires ':' !in a && ':' !in c && a + ":" + b == c + ":" + d
    ensures a == c && b == d
  {
    var s := a + ":" + b;
    assert s[|a|] == ':' && s[|c|] == ':' && s[..|a|] == a && s[..|c|] == c;
    assert |a| == |c| by {
      MarkIsOutside(s, |a|, c, ':');
      MarkIsOutside(s, |c|, a, ':');
    }
    assert s[|a| + 1..] == b && s[|c| + 1..] == d;
  }

  /** Two entries share a key text exactly when they share a key: no device's name can be mistaken
      for sizes, nor one pair of sizes for another. */
  lemma KeysAreExact(a: DiskEntry, b: DiskEntry)
    ensures KeyText(a) == KeyText(b) <==> KeyOf(a) == KeyOf(b)
  {
    var x, y := KeyText(a), KeyText(b);
    assert x[0] == (if a.device == "" then 's' else 'd') && y[0] == (if b.device == "" then 's' else 'd');
    if x == y {
      if a.device == "" {
        var s, t := Decimal(a.total) + ":" + Decimal(a.available), Decimal(b.total) + ":" + Decimal(b.available);
        assert x[5..] == s && y[5..] == t;
        SizesAreExact(Decimal(a.total), Decimal(a.available), Decimal(b.total), Decimal(b.available));
        DecimalIsExact(a.total, b.total);
        DecimalIsExact(a.available, b.available);
      } else {
        assert x[4..] == a.device && y[4..] == b.device;
      }
    }
  }
}
