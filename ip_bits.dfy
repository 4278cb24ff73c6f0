/** IPv4 address helpers of the UNSW-NB15 loader: `str.split('.')`, `split_ip`
    (one integer per dotted field) and the `ip_to_bin` encoding of an address
    as the concatenation of its fields written with `format(x, '08b')`. */
module IpBits {
  import opened Common
  import opened PyInt

  /** `s.split(sep)`: the pieces between separators, always at least one. */
  function SplitOn(s: string, sep: char): (fields: seq<string>)
    ensures |fields| >= 1
    ensures forall i :: 0 <= i < |fields| ==> sep !in fields[i]
  {
    if |s| == 0 then [""]
    else
      var rest := SplitOn(s[1..], sep);
      if s[0] == sep then [""] + rest
      else [[s[0]] + rest[0]] + rest[1..]
  }

  /** `sep.join(fields)`. */
  function JoinWith(fields: seq<string>, sep: char): string
    requires |fields| >= 1
  {
    if |fields| == 1 then fields[0] else fields[0] + [sep] + JoinWith(fields[1..], sep)
  }

  function CountChar(s: string, c: char): nat
  {
    if |s| == 0 then 0 else (if s[0] == c then 1 else 0) + CountChar(s[1..], c)
  }

  /** Splitting yields one more field than there are separators. */
  lemma {:induction false} SplitOnCount(s: string, sep: char)
    ensures |SplitOn(s, sep)| == CountChar(s, sep) + 1
  {
    if |s| > 0 {
      SplitOnCount(s[1..], sep);
    }
  }

  /** Joining the fields of a split gives back the string. */
  lemma {:induction false} SplitThenJoin(s: string, sep: char)
    ensures JoinWith(SplitOn(s, sep), sep) == s
  {
    if |s| > 0 {
      var rest := SplitOn(s[1..], sep);
      SplitThenJoin(s[1..], sep);
      if s[0] == sep {
        assert ([""] + rest)[1..] == rest;
      } else {
        JoinConsHead(s[0], rest, sep);
      }
    }
  }

  lemma JoinConsHead(c: char, fields: seq<string>, sep: char)
    requires |fields| >= 1
    ensures JoinWith([[c] + fields[0]] + fields[1..], sep) == [c] + JoinWith(fields, sep)
  {
    var g := [[c] + fields[0]] + fields[1..];
    if |fields| > 1 {
      assert g[1..] == fields[1..];
    }
  }

  /** Splitting a string without separators gives it back as the only field. */
  lemma {:induction false} SplitNoSep(a: string, sep: char)
    requires sep !in a
    ensures SplitOn(a, sep) == [a]
  {
    if |a| > 0 {
      SplitNoSep(a[1..], sep);
      assert [a[0]] + a[1..] == a;
    }
  }

  /** A separator-free field followed by a separator splits off as one field. */
  lemma {:induction false} SplitFieldThenSep(a: string, b: string, sep: char)
    requires sep !in a
    ensures SplitOn(a + [sep] + b, sep) == [a] + SplitOn(b, sep)
  {
    var s := a + [sep] + b;
    if |a| == 0 {
      assert s == [sep] + b;
      assert s[1..] == b;
    } else {
      assert s[1..] == a[1..] + [sep] + b;
      SplitFieldThenSep(a[1..], b, sep);
      assert [a[0]] + a[1..] == a;
    }
  }

  /** Splitting separator-free fields after joining them gives them back. */
  lemma {:induction false} JoinThenSplit(fields: seq<string>, sep: char)
    requires |fields| >= 1
    requires forall i :: 0 <= i < |fields| ==> sep !in fields[i]
    ensures SplitOn(JoinWith(fields, sep), sep) == fields
  {
    if |fields| == 1 {
      SplitNoSep(fields[0], sep);
    } else {
      JoinThenSplit(fields[1..], sep);
      SplitFieldThenSep(fields[0], JoinWith(fields[1..], sep), sep);
      assert [fields[0]] + fields[1..] == fields;
    }
  }

  /** `list(map(int, fields))`: None when some field makes `int` raise. */
  function ParseFields(fields: seq<string>): (r: Option<seq<int>>)
    ensures r.Some? <==> forall i :: 0 <= i < |fields| ==> ParseInt(fields[i], 10).Some?
    ensures r.Some? ==> |r.value| == |fields|
    ensures r.Some? ==> forall i :: 0 <= i < |fields| ==> ParseInt(fields[i], 10) == Some(r.value[i])
  {
    if |fields| == 0 then Some([])
    else
      match (ParseInt(fields[0], 10), ParseFields(fields[1..]))
      case (Some(v), Some(vs)) => Some([v] + vs)
      case _ => None
  }

  /** `split_ip(ip)`: the integer of every dot-separated field. */
  function SplitIp(ip: string): (r: Option<seq<int>>)
    ensures r.Some? ==> |r.value| == CountChar(ip, '.') + 1
  {
    SplitOnCount(ip, '.');
    ParseFields(SplitOn(ip, '.'))
  }

  /** A field padded with the unit separator `\x1f` makes `split_ip` fail. */
  lemma SplitIpRejectsSeparator()
    ensures SplitIp("1\U{1F}.2.3.4").None?
  {
    var a := "1\U{1F}";
    assert "1\U{1F}.2.3.4" == a + ['.'] + "2.3.4";
    SplitFieldThenSep(a, "2.3.4", '.');
    StripUnspaced(a);
    assert DigitValue(a[1]) == 36;
    assert ParseInt(a, 10).None?;
  }

  /** Dotted decimal text of a sequence of numbers. */
  function FormatIp(octets: seq<nat>): string
    requires |octets| >= 1
  {
    JoinWith(seq(|octets|, i requires 0 <= i < |octets| => Format(octets[i], 10)), '.')
  }

  /** `split_ip` reads back every address written in dotted decimal. */
  lemma SplitIpRoundTrip(octets: seq<nat>)
    requires |octets| >= 1
    ensures SplitIp(FormatIp(octets)) == Some(octets)
  {
    var fields := seq(|octets|, i requires 0 <= i < |octets| => Format(octets[i], 10));
    forall i | 0 <= i < |fields|
      ensures '.' !in fields[i] && ParseInt(fields[i], 10) == Some(octets[i])
    {
      DecimalRoundTrip(octets[i]);
      FormatDigits(octets[i], 10);
      assert forall k :: 0 <= k < |fields[i]| ==> fields[i][k] != '.';
    }
    JoinThenSplit(fields, '.');
    var r := ParseFields(fields);
    assert r.value == octets;
  }

  /** `s` preceded by enough '0's to be `width` long. */
  function PadLeft(s: string, width: nat): (r: string)
    ensures |r| == if |s| >= width then |s| else width
  {
    if |s| >= width then s else seq(width - |s|, _ => '0') + s
  }

  /** Binary digits never start with a sign. */
  lemma {:induction false} FormatLeadsWithDigit(n: nat)
    ensures '0' <= Format(n, 2)[0] <= '1'
  {
    if n < 2 {
      DigitCharValue(n);
    } else {
      FormatLeadsWithDigit(n / 2);
    }
  }

  /** `format(n, '08b')`: binary digits zero-padded to eight characters, a
      minus sign counting towards the width. */
  function Format08b(n: int): (r: string)
    ensures |r| >= 8
    ensures n < 0 <==> r[0] == '-'
  {
    FormatLeadsWithDigit(if n >= 0 then n else -n);
    if n >= 0 then PadLeft(Format(n, 2), 8) else "-" + PadLeft(Format(-n, 2), 7)
  }

  function ConcatBits(ns: seq<int>): (r: string)
    ensures |r| >= 8 * |ns|
  {
    if |ns| == 0 then [] else Format08b(ns[0]) + ConcatBits(ns[1..])
  }

  /** `ip_to_bin(ip)`; None when some field makes `int` raise. */
  function IpToBin(ip: string): (r: Option<string>)
    ensures r.Some? <==> SplitIp(ip).Some?
    ensures r.Some? ==> |r.value| >= 8 * (CountChar(ip, '.') + 1)
  {
    match SplitIp(ip)
    case Some(ns) => Some(ConcatBits(ns))
    case None => None
  }

  predicate IsBit(c: char)
  {
    c == '0' || c == '1'
  }

  predicate IsOctet(n: int)
  {
    0 <= n < 256
  }

  function Pow2(k: nat): nat
  {
    if k == 0 then 1 else 2 * Pow2(k - 1)
  }

  lemma {:induction false} BinaryLength(n: nat, k: nat)
    requires 1 <= k && n < Pow2(k)
    ensures |Format(n, 2)| <= k
  {
    if n >= 2 {
      FormatStep(n, 2);
      BinaryLength(n / 2, k - 1);
    }
  }

  lemma {:induction false} LeadingZeros(z: nat, d: string)
    ensures DigitsValue(seq(z, _ => '0') + d, 2) == DigitsValue(d, 2)
  {
    var s := seq(z, _ => '0') + d;
    if |d| == 0 {
      assert s == seq(z, _ => '0');
      if z > 0 {
        assert s[..|s| - 1] == seq(z - 1, _ => '0') + [];
        LeadingZeros(z - 1, []);
      }
    } else {
      assert s[..|s| - 1] == seq(z, _ => '0') + d[..|d| - 1];
      LeadingZeros(z, d[..|d| - 1]);
    }
  }

  /** An octet is written as exactly eight bits that read back as the octet. */
  lemma OctetBits(n: int)
    requires IsOctet(n)
    ensures |Format08b(n)| == 8
    ensures forall i :: 0 <= i < 8 ==> IsBit(Format08b(n)[i])
    ensures DigitsValue(Format08b(n), 2) == n
  {
    var d := Format(n, 2);
    PaddedOctet(n);
    var z := seq(8 - |d|, _ => '0');
    FormatValue(n, 2);
    LeadingZeros(8 - |d|, d);
    FormatDigits(n, 2);
    BitsOfPadded(z, d);
  }

  lemma PaddedOctet(n: int)
    requires IsOctet(n)
    ensures |Format(n, 2)| <= 8
    ensures Format08b(n) == seq(8 - |Format(n, 2)|, _ => '0') + Format(n, 2)
  {
    OctetFitsEightBits(n);
  }

  lemma BitsOfPadded(z: string, d: string)
    requires forall i :: 0 <= i < |z| ==> z[i] == '0'
    requires forall i :: 0 <= i < |d| ==> IsDigitIn(d[i], 2)
    ensures forall i :: 0 <= i < |z + d| ==> IsBit((z + d)[i])
  {
    forall i | 0 <= i < |z + d|
      ensures IsBit((z + d)[i])
    {
      if i >= |z| {
        assert (z + d)[i] == d[i - |z|];
      }
    }
  }

  lemma OctetFitsEightBits(n: nat)
    requires n < 256
    ensures |Format(n, 2)| <= 8
  {
    assert Pow2(8) == 256;
    BinaryLength(n, 8);
  }

  /** Octets encode to 8 bits each. */
  lemma {:induction false} ConcatBitsLength(ns: seq<int>)
    requires forall i :: 0 <= i < |ns| ==> IsOctet(ns[i])
    ensures |ConcatBits(ns)| == 8 * |ns|
  {
    if |ns| > 0 {
      OctetBits(ns[0]);
      ConcatBitsLength(ns[1..]);
    }
  }

  /** Bit k of octet j sits at position 8j + k. */
  lemma {:induction false} ConcatBitsAt(ns: seq<int>, j: nat, k: nat)
    requires forall i :: 0 <= i < |ns| ==> IsOctet(ns[i])
    requires j < |ns| && k < 8
    ensures |ConcatBits(ns)| == 8 * |ns|
    ensures ConcatBits(ns)[8 * j + k] == Format08b(ns[j])[k]
  {
    var h, t := Format08b(ns[0]), ConcatBits(ns[1..]);
    assert |h| == 8 by { OctetBits(ns[0]); }
    assert |t| == 8 * (|ns| - 1) by { ConcatBitsLength(ns[1..]); }
    assert ConcatBits(ns) == h + t;
    if j > 0 {
      ConcatBitsAt(ns[1..], j - 1, k);
      assert ns[1..][j - 1] == ns[j];
      assert (h + t)[8 * j + k] == t[8 * (j - 1) + k];
    }
  }

  /** Octets encode to 8 bits each, all '0' or '1', and every 8-bit chunk
      reads back as its octet. */
  lemma ConcatBitsOctets(ns: seq<int>)
    requires forall i :: 0 <= i < |ns| ==> IsOctet(ns[i])
    ensures |ConcatBits(ns)| == 8 * |ns|
    ensures forall i :: 0 <= i < |ConcatBits(ns)| ==> IsBit(ConcatBits(ns)[i])
    ensures forall j :: 0 <= j < |ns| ==> DigitsValue(ConcatBits(ns)[8 * j .. 8 * j + 8], 2) == ns[j]
  {
    var b := ConcatBits(ns);
    ConcatBitsLength(ns);
    forall j | 0 <= j < |ns|
      ensures DigitsValue(b[8 * j .. 8 * j + 8], 2) == ns[j]
    {
      var chunk := b[8 * j .. 8 * j + 8];
      OctetBits(ns[j]);
      forall k | 0 <= k < 8
        ensures chunk[k] == Format08b(ns[j])[k]
      {
        ConcatBitsAt(ns, j, k);
      }
      assert chunk == Format08b(ns[j]);
    }
    forall i | 0 <= i < |b|
      ensures IsBit(b[i])
    {
      var j, k := i / 8, i % 8;
      ConcatBitsAt(ns, j, k);
      OctetBits(ns[j]);
    }
  }

  /** For an address of four octets, `ip_to_bin` yields 32 characters of '0'
      and '1', and reading them back eight at a time returns the octets. */
  lemma IpToBinOctets(octets: seq<nat>)
    requires |octets| == 4 && forall i :: 0 <= i < 4 ==> IsOctet(octets[i])
    ensures IpToBin(FormatIp(octets)).Some?
    ensures var b := IpToBin(FormatIp(octets)).value;
      && |b| == 32
      && (forall i :: 0 <= i < 32 ==> IsBit(b[i]))
      && (forall j :: 0 <= j < 4 ==> DigitsValue(b[8 * j .. 8 * j + 8], 2) == octets[j])
  {
    SplitIpRoundTrip(octets);
    ConcatBitsOctets(octets);
  }
}
