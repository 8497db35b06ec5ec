/** 32-bit words in network byte order. */
module ByteOrder {
  import opened Words

  function Htonl(n: nat): (h: string)
    requires n < WORD
    ensures |h| == 4
  {
    [(n / 0x100_0000) as char, (n / 0x1_0000 % 0x100) as char, (n / 0x100 % 0x100) as char, (n % 0x100) as char]
  }

  function Ntohl(h: string): nat
    requires |h| == 4
  {
    h[0] as int * 0x100_0000 + h[1] as int * 0x1_0000 + h[2] as int * 0x100 + h[3] as int
  }

  /** The number that some bytes stand for, most significant byte first. */
  function BigEndian(h: string): nat {
    if h == "" then 0 else 0x100 * BigEndian(h[..|h| - 1]) + h[|h| - 1] as int
  }

  /** A word in network byte order is four bytes, the most significant one first. */
  lemma HtonlIsBigEndian(n: nat)
    requires n < WORD
    ensures (forall i | 0 <= i < 4 :: Htonl(n)[i] < 256 as char) && BigEndian(Htonl(n)) == n
  {
    var h := Htonl(n);
    assert h[..3][..2] == h[..2] && h[..2][..1] == h[..1] && h[..1][..0] == "";
    NtohlOfHtonl(n);
    assert BigEndian(h[..1]) == h[0] as int;
    assert BigEndian(h[..2]) == 0x100 * h[0] as int + h[1] as int;
    assert BigEndian(h[..3]) == 0x100 * BigEndian(h[..2]) + h[2] as int;
  }

  lemma NtohlOfHtonl(n: nat)
    requires n < WORD
    ensures Ntohl(Htonl(n)) == n
  {
    assert n / 0x100 == n / 0x1_0000 * 0x100 + n / 0x100 % 0x100;
    assert n / 0x1_0000 == n / 0x100_0000 * 0x100 + n / 0x1_0000 % 0x100;
  }
}
