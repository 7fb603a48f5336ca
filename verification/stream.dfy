/**
 * The provably-fair random stream of server.js (`generateFloats`): for cursor
 * 0, 1, 2, ... the HMAC-SHA256 digest of `clientSeed:nonce:cursor` keyed by the
 * server seed is cut into eight big-endian 32-bit words, each of which stands for
 * the float `word / 2^32`.
 */
module Stream {
  import opened Text

  type Byte = x: int | 0 <= x < 0x100

  /** A SHA-256 sized digest: 32 bytes. */
  type Digest = s: seq<Byte> | |s| == 32 witness seq(32, _ => 0)

  /**
   * HMAC-SHA256 (RFC 2104 over FIPS 180-4 SHA-256) as a function of key and message.
   * The model never looks inside it: every property holds for any such function.
   */
  type Hmac = (string, string) -> Digest

  /** The numerator of one float of the stream, over 2^32. */
  type Word = x: int | 0 <= x < 0x1_0000_0000

  const WordRange: nat := 0x1_0000_0000

  /** Words cut from one digest (`buffer.length / 4`). */
  const WordsPerDigest: nat := 8

  /** The HMAC message for one cursor: `${clientSeed}:${nonce}:${cursor}`. */
  function Message(clientSeed: string, nonce: nat, cursor: nat): string {
    clientSeed + ":" + NatToString(nonce) + ":" + NatToString(cursor)
  }

  /** `buffer.readUInt32BE(off)`. */
  function ReadUInt32BE(d: Digest, off: nat): (w: Word)
    requires off + 4 <= |d|
  {
    var b0: int, b1: int, b2: int, b3: int := d[off], d[off + 1], d[off + 2], d[off + 3];
    b0 * 0x100_0000 + b1 * 0x1_0000 + b2 * 0x100 + b3
  }

  /** The four bytes read, most significant first, can be recovered from the word. */
  lemma ReadUInt32BEBytes(d: Digest, off: nat)
    requires off + 4 <= |d|
    ensures var w := ReadUInt32BE(d, off);
      && w / 0x100_0000 == d[off] as int
      && (w / 0x1_0000) % 0x100 == d[off + 1] as int
      && (w / 0x100) % 0x100 == d[off + 2] as int
      && w % 0x100 == d[off + 3] as int
  {
    var b0: int, b1: int, b2: int, b3: int := d[off], d[off + 1], d[off + 2], d[off + 3];
    var w := ReadUInt32BE(d, off);
    var low := b1 * 0x1_0000 + b2 * 0x100 + b3;
    assert w == b0 * 0x100_0000 + low && 0 <= low < 0x100_0000;
    var mid := b2 * 0x100 + b3;
    assert w / 0x1_0000 == b0 * 0x100 + b1 by {
      assert w == (b0 * 0x100 + b1) * 0x1_0000 + mid && 0 <= mid < 0x1_0000;
    }
    assert w / 0x100 == (b0 * 0x1_0000 + b1 * 0x100 + b2) by {
      assert w == (b0 * 0x1_0000 + b1 * 0x100 + b2) * 0x100 + b3;
    }
  }

  /** Element k of the stream: word k mod 8 of the digest for cursor k div 8. */
  function FloatAt(hmac: Hmac, serverSeed: string, clientSeed: string, nonce: nat, k: nat): Word {
    ReadUInt32BE(hmac(serverSeed, Message(clientSeed, nonce, k / WordsPerDigest)), 4 * (k % WordsPerDigest))
  }

  /** The first `count` elements of the stream, in the order `generateFloats` pushes them. */
  function Floats(hmac: Hmac, serverSeed: string, clientSeed: string, nonce: nat, count: nat): (r: seq<Word>)
    ensures |r| == count
  {
    if count == 0 then []
    else Floats(hmac, serverSeed, clientSeed, nonce, count - 1) + [FloatAt(hmac, serverSeed, clientSeed, nonce, count - 1)]
  }

  /** The float a word stands for. */
  function ToUnit(w: Word): (f: real)
    ensures 0.0 <= f < 1.0
  {
    w as real / WordRange as real
  }

  /** Element k of any request for more than k floats is the word at k. */
  lemma {:induction false} FloatsAt(hmac: Hmac, serverSeed: string, clientSeed: string, nonce: nat, count: nat, k: nat)
    requires k < count
    ensures Floats(hmac, serverSeed, clientSeed, nonce, count)[k] == FloatAt(hmac, serverSeed, clientSeed, nonce, k)
    decreases count
  {
    if k < count - 1 {
      FloatsAt(hmac, serverSeed, clientSeed, nonce, count - 1, k);
    }
  }

  /** A shorter request is a prefix of a longer one with the same seeds and nonce. */
  lemma {:induction false} FloatsPrefix(hmac: Hmac, serverSeed: string, clientSeed: string, nonce: nat, shorter: nat, longer: nat)
    requires shorter <= longer
    ensures Floats(hmac, serverSeed, clientSeed, nonce, shorter) == Floats(hmac, serverSeed, clientSeed, nonce, longer)[..shorter]
    decreases longer
  {
    if shorter < longer {
      FloatsPrefix(hmac, serverSeed, clientSeed, nonce, shorter, longer - 1);
      var s := Floats(hmac, serverSeed, clientSeed, nonce, longer);
      assert s[..longer - 1] == Floats(hmac, serverSeed, clientSeed, nonce, longer - 1);
    }
  }

  /** The stream grows by word j of the digest for cursor `cursor`. */
  lemma FloatsNext(hmac: Hmac, serverSeed: string, clientSeed: string, nonce: nat, cursor: nat, j: nat)
    requires j < WordsPerDigest
    ensures var k := WordsPerDigest * cursor + j;
      Floats(hmac, serverSeed, clientSeed, nonce, k + 1)
        == Floats(hmac, serverSeed, clientSeed, nonce, k) + [ReadUInt32BE(hmac(serverSeed, Message(clientSeed, nonce, cursor)), j * 4)]
  {
    var k := WordsPerDigest * cursor + j;
    assert k / WordsPerDigest == cursor && k % WordsPerDigest == j;
  }

  /**
   * `generateFloats(serverSeed, clientSeed, nonce, count)`: digests are computed for
   * cursor 0, 1, ... while fewer than `count` floats exist, and each digest yields up
   * to eight words.
   */
  method GenerateFloats(hmac: Hmac, serverSeed: string, clientSeed: string, nonce: nat, count: nat)
    returns (floats: seq<Word>)
    ensures floats == Floats(hmac, serverSeed, clientSeed, nonce, count)
    ensures |floats| == count
  {
    floats := [];
    var i: nat := 0;
    while |floats| < count
      invariant |floats| <= count
      invariant |floats| < count ==> |floats| == WordsPerDigest * i
      invariant floats == Floats(hmac, serverSeed, clientSeed, nonce, |floats|)
      decreases count - |floats|
    {
      var cursor := i;
      var buffer := hmac(serverSeed, Message(clientSeed, nonce, cursor));
      i := i + 1;
      for j := 0 to |buffer| / 4
        invariant |floats| <= count
        invariant |floats| == WordsPerDigest * cursor + j
        invariant floats == Floats(hmac, serverSeed, clientSeed, nonce, |floats|)
      {
        if |floats| >= count {
          break;
        }
        var w := ReadUInt32BE(buffer, j * 4);
        assert floats + [w] == Floats(hmac, serverSeed, clientSeed, nonce, |floats| + 1) by {
          FloatsNext(hmac, serverSeed, clientSeed, nonce, cursor, j);
        }
        floats := floats + [w];
      }
    }
  }
}
