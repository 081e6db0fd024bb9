/**
 What a hash says and which hashes are accepted, in numbers and letters: the text that is
 printed, the key that is derived, the bounds of what is verified, and base64's alphabet and
 test vectors (RFC 4648, section 10).
 */
module PasswordAnswers {
  import opened Base64
  import opened Decimals
  import opened Splitting
  import opened Passwords

  // ------------------------------------------------------------------------------- base64

  /** The alphabet: three runs of consecutive characters and two more. */
  lemma Alphabet()
    ensures Letter(0) == 'A' && Letter(25) == 'Z' && Letter(26) == 'a' && Letter(51) == 'z'
    ensures Letter(52) == '0' && Letter(61) == '9' && Letter(62) == '+' && Letter(63) == '/'
    ensures forall n: nat :: n < 61 && n != 25 && n != 51 ==> Letter(n + 1) as int == Letter(n) as int + 1
  {
  }

  lemma TestVectors()
    ensures Encode([]) == "" && Encode([102]) == "Zg" && Encode([102, 111]) == "Zm8" && Encode([102, 111, 111]) == "Zm9v"
  {
  }

  // ------------------------------------------------------------------------- the text

  /** The text of a hash, written out. */
  function Text(p: Params, salt: Bytes, key: Bytes): string
  {
    "$argon2id$v=19$m=" + Digits(p.memory) + ",t=" + Digits(p.iterations) + ",p=" + Digits(p.parallelism)
    + "$" + Encode(salt) + "$" + Encode(key)
  }

  lemma JoinFirst(first: string, rest: seq<string>, comma: char)
    requires rest != []
    ensures Join([first] + rest, comma) == first + [comma] + Join(rest, comma)
  {
    assert ([first] + rest)[1..] == rest;
  }

  lemma JoinSix(a: string, b: string, c: string, d: string, e: string, f: string, comma: char)
    ensures Join([a, b, c, d, e, f], comma) == a + [comma] + (b + [comma] + (c + [comma] + (d + [comma] + (e + [comma] + f))))
  {
    JoinFirst(a, [b, c, d, e, f], comma);
    JoinFirst(b, [c, d, e, f], comma);
    JoinFirst(c, [d, e, f], comma);
    JoinFirst(d, [e, f], comma);
    JoinFirst(e, [f], comma);
    assert [a] + [b, c, d, e, f] == [a, b, c, d, e, f] && [b] + [c, d, e, f] == [b, c, d, e, f];
    assert [c] + [d, e, f] == [c, d, e, f] && [d] + [e, f] == [d, e, f] && [e] + [f] == [e, f];
  }

  lemma CostWritten(c: Cost)
    ensures PrintCost(c) == "m=" + Digits(c.memory) + ",t=" + Digits(c.iterations) + ",p=" + Digits(c.parallelism)
  {
    var m, t, p := PrintParameter('m', c.memory), PrintParameter('t', c.iterations), PrintParameter('p', c.parallelism);
    JoinFirst(m, [t, p], ',');
    JoinFirst(t, [p], ',');
    assert [m] + [t, p] == [m, t, p] && [t] + [p] == [t, p];
    assert m == "m=" + Digits(c.memory) && t == "t=" + Digits(c.iterations) && p == "p=" + Digits(c.parallelism);
  }

  lemma FlatFields(v: string, m: string, t: string, p: string, salt: string, key: string)
    ensures "" + ['$'] + ("argon2id" + ['$'] + ("v=19" + ['$'] + (("m=" + m + ",t=" + t + ",p=" + p) + ['$'] + (salt + ['$'] + key))))
            == "$argon2id$v=19$m=" + m + ",t=" + t + ",p=" + p + "$" + salt + "$" + key
  {
  }

  lemma PrintedText(p: Params, salt: Bytes, key: Bytes)
    ensures Print(p, salt, key) == Text(p, salt, key)
  {
    CostWritten(CostOf(p));
    JoinSix("", "argon2id", "v=19", PrintCost(CostOf(p)), Encode(salt), Encode(key), '$');
    FlatFields("v=19", Digits(p.memory), Digits(p.iterations), Digits(p.parallelism), Encode(salt), Encode(key));
  }

  // ------------------------------------------------------------------------- the bounds

  /** What is verified: at most 64 MiB, ten passes and 256 MiB of work, and bounded salts and keys. */
  predicate Within(p: Params, salt: Bytes, key: Bytes)
  {
    && 1 <= p.parallelism <= 16 && 8 * p.parallelism <= p.memory <= 65536 && 1 <= p.iterations <= 10
    && p.memory * p.iterations <= 262144
    && |salt| == p.saltLength && 8 <= |salt| <= 48 && |key| == p.keyLength && 12 <= |key| <= 64
  }

  /** The accepted hashes are exactly the texts of parameters, salts and keys within the bounds. */
  lemma AcceptedExactly(encoded: string)
    ensures Parse(encoded).Parsed? ==>
              var h := Parse(encoded); Within(h.params, h.salt, h.key) && encoded == Text(h.params, h.salt, h.key)
    ensures forall p, salt, key :: Within(p, salt, key) && encoded == Text(p, salt, key) ==> Parse(encoded) == Parsed(p, salt, key)
  {
    if Parse(encoded).Parsed? {
      PrintParse(encoded);
      PrintedText(Parse(encoded).params, Parse(encoded).salt, Parse(encoded).key);
    }
    forall p, salt, key | Within(p, salt, key) && encoded == Text(p, salt, key)
      ensures Parse(encoded) == Parsed(p, salt, key)
    {
      PrintedText(p, salt, key);
      ParsePrint(p, salt, key);
    }
  }

  /** The weakest memory that may be hashed with, by the number of passes, in KiB. */
  function Weakest(iterations: int): int
  {
    if iterations == 1 then 47104 else if iterations == 2 then 19456 else if iterations == 3 then 12288
    else if iterations == 4 then 9216 else 7168
  }

  /** What may be hashed with: a strong profile within those bounds, with at least 16 bytes of salt and of key. */
  lemma GenerationBounds(p: Params)
    ensures MayGenerate(p) <==>
              && 1 <= p.parallelism <= 16 && 1 <= p.iterations <= 10 && Weakest(p.iterations) <= p.memory <= 65536
              && p.memory * p.iterations <= 262144 && 16 <= p.saltLength <= 48 && 16 <= p.keyLength <= 64
  {
  }

  // -------------------------------------------------------------------- keys and verdicts

  /** The key in a hash is the one derived from the password, the salt and the costs in the hash, in this order. */
  lemma KeyIsDerived(kdf: Derivation, p: Params, password: Bytes, salt: Bytes)
    requires Derives(kdf) && MayGenerate(p) && |salt| == p.saltLength
    ensures var h := Parse(Print(p, salt, KeyOf(kdf, p, password, salt)));
            && h.Parsed? && h.params == p && h.salt == salt
            && h.key == kdf(password, h.salt, h.params.iterations, h.params.memory, h.params.parallelism, |h.key|)
  {
    GenerationImpliesVerification(p);
    ParsePrint(p, salt, KeyOf(kdf, p, password, salt));
  }

  /** Verifying derives a key from what the hash says and compares. */
  lemma VerdictAnswers(kdf: Derivation, password: Bytes, encoded: string)
    ensures Verdict(kdf, password, encoded)
            == if |password| > 1048576 then TooLong
               else if Parse(encoded).Invalid? then InvalidHash
               else
                 var h := Parse(encoded);
                 Ok(kdf(password, h.salt, h.params.iterations, h.params.memory, h.params.parallelism, |h.key|) == h.key)
  {
    if Parse(encoded).Parsed? {
      PrintParse(encoded);
    }
  }

  /** A new hash is asked for exactly when the costs or the lengths in the hash differ from the hasher's. */
  lemma OutdatedAnswers(mine: Params, encoded: string)
    ensures Outdated(mine, encoded)
            == if Parse(encoded).Invalid? then InvalidHash
               else
                 var h := Parse(encoded);
                 Ok(h.params.memory != mine.memory || h.params.iterations != mine.iterations
                    || h.params.parallelism != mine.parallelism || |h.salt| != mine.saltLength || |h.key| != mine.keyLength)
  {
    if Parse(encoded).Parsed? {
      PrintParse(encoded);
    }
  }
}
