/** The Base58 alphabet, and the coder over it. */
module Base58 {
  import opened Base58Coder

  /** All letters and digits except 0, I, O and l. */
  const ALPHABET: string :=
    "123456789" + "ABCDEFGH" + "JKLMN" + "PQRSTUVWXYZ" + "abcdefghijk" + "mnopqrstuvwxyz"

  /** Consecutive characters from a code on. */
  ghost predicate Consecutive(s: string, from: nat) {
    forall k :: 0 <= k < |s| ==> s[k] as nat == from + k
  }

  ghost function Code(k: nat): nat {
    if k < 9 then 49 + k else if k < 17 then 56 + k else if k < 22 then 57 + k
    else if k < 33 then 58 + k else if k < 44 then 64 + k else 65 + k
  }

  lemma Codes(k: nat)
    requires k < |ALPHABET|
    ensures |ALPHABET| == 58 && ALPHABET[k] as nat == Code(k)
  {
    assert Consecutive("123456789", 49);
    assert Consecutive("ABCDEFGH", 65);
    assert Consecutive("JKLMN", 74);
    assert Consecutive("PQRSTUVWXYZ", 80);
    assert Consecutive("abcdefghijk", 97);
    assert Consecutive("mnopqrstuvwxyz", 109);
  }

  /** Every character of the alphabet stands there once, and none of them is a space. */
  lemma AlphabetOk()
    ensures Alphabet(ALPHABET)
  {
    assert "123456789"[0] == '1' && ALPHABET[0] == '1';
    forall i, j | 0 <= i < j < |ALPHABET| ensures ALPHABET[i] != ALPHABET[j] {
      Codes(i);
      Codes(j);
    }
    forall i | 0 <= i < |ALPHABET| ensures !IsSpace(ALPHABET[i]) {
      Codes(i);
    }
    Codes(0);
  }

  /** One 1 for each leading zero byte, then the number in base 58. */
  method EncodeBase58(p: seq<nat>) returns (str: string)
    requires Bytes(p)
    ensures Alphabet(ALPHABET) && str == Encoded(ALPHABET, p)
  {
    AlphabetOk();
    str := Encode(ALPHABET, p);
  }

  /** The text before the terminating zero, with spaces allowed around it. */
  method DecodeBase58(psz: string) returns (vch: Option<seq<nat>>)
    ensures vch == Decoded(ALPHABET, Trim(psz))
  {
    AlphabetOk();
    vch := Decode(ALPHABET, psz);
  }

  /** Decoding accepts exactly the texts whose trimmed characters all belong to the alphabet, and loses nothing. */
  method RoundTrip(p: seq<nat>, psz: string) returns (again: Option<seq<nat>>, text: Option<string>)
    requires Bytes(p)
    ensures again == Some(p)
    ensures text == if InAlphabet(ALPHABET, Trim(psz)) then Some(Trim(psz)) else None
  {
    AlphabetOk();
    var str := EncodeBase58(p);
    DecodeEncoded(ALPHABET, p);
    again := DecodeBase58(str);
    var vch := DecodeBase58(psz);
    if vch.Some? {
      EncodeDecoded(ALPHABET, Trim(psz));
      var back := EncodeBase58(vch.value);
      text := Some(back);
    } else {
      text := None;
    }
  }
}
