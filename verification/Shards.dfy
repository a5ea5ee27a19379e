/** What an encoding is, said with the bytes of the data and sums alone (src/erasure.rs:27-59, src/erasure.rs:217-227): how
    long a shard is, and which combination of which bytes each of its elements is. */
module Shards {
  import opened Numbers
  import opened Goldilocks
  import opened Polynomial
  import opened Transform
  import opened Bytes
  import opened Erasure
  import opened Chunks

  /** The byte at a position; zero past the end. */
  function ByteAt(data: seq<Byte>, p: nat): nat {
    if p < |data| then data[p] else 0
  }

  /** The m bytes from position p on as a little-endian number: the sum of byte p + j times 256^j. */
  function LittleEndian(data: seq<Byte>, p: nat, m: nat): int {
    if m == 0 then 0 else LittleEndian(data, p, m - 1) + ByteAt(data, p + (m - 1)) * Pow(256, m - 1)
  }

  /** The sum, over j < m, of the number in bytes 7i to 7i + 6, where i = g * k + j, times w^(s * j). */
  function TermSum(data: seq<Byte>, k: nat, w: int, s: nat, g: nat, m: nat): int {
    if m == 0 then 0
    else TermSum(data, k, w, s, g, m - 1) + LittleEndian(data, 7 * (g * k + (m - 1)), 7) * Pow(w, s * (m - 1))
  }

  // ---------- sizes ----------

  /** A shard has one element for every k whole or partial words of seven bytes. */
  lemma ShardSize(data: seq<Byte>, k: nat, n: nat, s: nat)
    requires 1 <= k <= n && s < n
    ensures
      var words, groups := (|data| + 6) / 7, |EncodedShard(data, k, n, s).data|;
      if |data| == 0 then groups == 0 else (groups - 1) * k < words <= groups * k
  {
    hide Codeword;
    if data != [] {
      LeastMultiple((|data| + 6) / 7, k);
    }
  }

  lemma LeastMultiple(m: nat, k: nat)
    requires k > 0 && m > 0
    ensures var g := (m + k - 1) / k; (g - 1) * k < m <= g * k
  {
    var g, r := (m + k - 1) / k, (m + k - 1) % k;
    assert m + k - 1 == k * g + r;
    assert (g - 1) * k == g * k - k == k * g - k;
  }

  // ---------- elements ----------

  lemma {:induction false} LimitIsPower(n: nat)
    ensures Limit(n) == Pow(256, n)
  {
    if n > 0 {
      LimitIsPower(n - 1);
    }
  }

  lemma {:induction false} NumberOfBytes(b: seq<Byte>, data: seq<Byte>, p: nat, m: nat)
    requires |b| <= m && forall j :: 0 <= j < m ==> ByteAt(data, p + j) == ByteAt(b, j)
    ensures FromLE(b) == LittleEndian(data, p, m)
    decreases m
  {
    if m > 0 {
      if |b| < m {
        assert ByteAt(data, p + (m - 1)) == ByteAt(b, m - 1) == 0;
        NumberOfBytes(b, data, p, m - 1);
      } else {
        var low, last := b[..m - 1], b[m - 1];
        assert b == low + [last];
        FromLESnoc(low, last);
        LimitIsPower(m - 1);
        assert ByteAt(data, p + (m - 1)) == ByteAt(b, m - 1) == last;
        forall j | 0 <= j < m - 1
          ensures ByteAt(data, p + j) == ByteAt(low, j)
        {
          assert ByteAt(data, p + j) == ByteAt(b, j);
        }
        NumberOfBytes(low, data, p, m - 1);
      }
    }
  }

  /** The i-th packed element is the number in bytes 7i to 7i + 6. */
  lemma {:induction false} PackedWord(data: seq<Byte>, whole: seq<Byte>, i: nat, at: nat)
    requires i < |Pack(data)| && at <= |whole| && whole[at..] == data
    ensures Pack(data)[i] == LittleEndian(whole, at + 7 * i, 7)
    decreases i
  {
    var chunk := if |data| <= 7 then data else data[..7];
    if i == 0 {
      forall j | 0 <= j < 7
        ensures ByteAt(whole, at + j) == ByteAt(chunk, j)
      {
        assert j < |data| ==> whole[at + j] == whole[at..][j];
      }
      NumberOfBytes(chunk, whole, at, 7);
    } else {
      assert |data| > 7;
      assert whole[at + 7..] == data[7..];
      PackedWord(data[7..], whole, i - 1, at + 7);
    }
  }

  lemma {:induction false} NothingPast(data: seq<Byte>, p: nat, m: nat)
    requires p >= |data|
    ensures LittleEndian(data, p, m) == 0
  {
    if m > 0 {
      NothingPast(data, p, m - 1);
    }
  }

  /** Element i of the padded list, which is zero past the packed words. */
  lemma PaddedWord(data: seq<Byte>, k: nat, i: nat)
    requires k > 0 && i < |Padded(data, k)|
    ensures Padded(data, k)[i] == LittleEndian(data, 7 * i, 7)
  {
    if i < |Pack(data)| {
      assert data[0..] == data;
      PackedWord(data, data, i, 0);
    } else {
      NothingPast(data, 7 * i, 7);
    }
  }

  lemma {:induction false} EvalIsSum(data: seq<Byte>, k: nat, c: seq<int>, x: int, w: int, s: nat, g: nat, m: nat)
    requires m <= |c| && Cong(x, Pow(w, s), P)
    requires forall j :: 0 <= j < m ==> c[j] == LittleEndian(data, 7 * (g * k + j), 7)
    ensures Cong(Eval(c[..m], x), TermSum(data, k, w, s, g, m), P)
  {
    hide LittleEndian, Cong;
    if m == 0 {
      CongRefl(0, P);
    } else {
      var j := m - 1;
      EvalIsSum(data, k, c, x, w, s, g, j);
      assert c[..m] == c[..j] + [c[j]];
      EvalSnoc(c[..j], c[j], x);
      CongPow(x, Pow(w, s), j, P);
      PowMul(w, s, j);
      CongRefl(c[j], P);
      CongMul(c[j], c[j], Pow(x, j), Pow(w, s * j), P);
      CongAdd(Eval(c[..j], x), TermSum(data, k, w, s, g, j), c[j] * Pow(x, j), c[j] * Pow(w, s * j), P);
    }
  }

  /** Element g of shard s is the sum, over j < k, of word g * k + j of the data times the s * j-th power of the n-th root
      of unity 7^((P - 1) / n), modulo P. */
  lemma ShardElement(data: seq<Byte>, k: nat, n: nat, s: nat, g: nat)
    requires 1 <= k <= n && s < n && g < |EncodedShard(data, k, n, s).data|
    ensures Cong(EncodedShard(data, k, n, s).data[g], TermSum(data, k, Pow(7, (P - 1) / n), s, g, k), P)
  {
    var groups := GroupCount(|Pack(data)|, k);
    var c := Group(Padded(data, k), k, groups, g);
    var w := Pow(7, (P - 1) / n);
    var x := Reduce(Pow(Omega(n), s));
    assert EncodedShard(data, k, n, s).data[g] == Codeword(data, k, n, g)[s];
    CodewordValue(data, k, n, g, s);
    CongMod(w, P);
    CongPow(Omega(n), w, s, P);
    CongMod(Pow(Omega(n), s), P);
    CongTrans(x, Pow(Omega(n), s), Pow(w, s), P);
    GroupBounds(g, groups, k);
    hide Codeword, Cong, Omega, EncodedShard;
    forall j | 0 <= j < k
      ensures c[j] == LittleEndian(data, 7 * (g * k + j), 7)
    {
      PaddedWord(data, k, g * k + j);
    }
    EvalIsSum(data, k, c, x, w, s, g, k);
    assert c[..k] == c;
    CongTrans(Codeword(data, k, n, g)[s], Eval(c, x), TermSum(data, k, w, s, g, k), P);
  }

  // ---------- the byte form ----------

  /** Element i of a shard stands in bytes 8i to 8i + 7 of its byte form, as a little-endian number. */
  lemma {:induction false} ElementBytesAt(data: seq<Element>, i: nat)
    requires i < |data|
    ensures |ElementBytes(data)| == 8 * |data| && LittleEndian(ElementBytes(data), 8 * i, 8) == data[i]
  {
    var b := ElementBytes(data);
    WordOfBytes(data, i);
    var word := b[8 * i..8 * i + 8];
    Limits();
    FromLEToLE(data[i], 8);
    forall j | 0 <= j < 8
      ensures ByteAt(b, 8 * i + j) == ByteAt(word, j)
    {
    }
    NumberOfBytes(word, b, 8 * i, 8);
  }

  lemma {:induction false} WordOfBytes(data: seq<Element>, i: nat)
    requires i < |data|
    ensures ElementBytes(data)[8 * i..8 * i + 8] == ToLE(data[i], 8)
  {
    hide ToLE;
    if i > 0 {
      WordOfBytes(data[1..], i - 1);
      assert ElementBytes(data)[8 * i..8 * i + 8] == ElementBytes(data[1..])[8 * (i - 1)..8 * (i - 1) + 8];
    }
  }
}
