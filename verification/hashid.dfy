/** The short-id generator `_generate_hash_id`: candidates of `LENGTH_OF_HASH + 1`
    letters drawn at random from 'a'..'z', retried whole until the record store
    has no record under the candidate. The random number generator is an oracle:
    the sequence of values `rand(len)` returns, in order. */
module HashId {

  /** The 26 lower-case letters, 'a' to 'z'. */
  const Alphabet: string := seq(26, i requires 0 <= i < 26 => ('a' as int + i) as char)

  /** The pool the generator draws from: the alphabet three times over. */
  const Chars: string := Alphabet + Alphabet + Alphabet

  /** The pool holds 78 characters, and the one at index `d` is the `d % 26`-th
      letter of the alphabet. */
  lemma PoolIsThreeAlphabets()
    ensures |Chars| == 78
    ensures forall d :: 0 <= d < |Chars| ==> Chars[d] == Alphabet[d % 26]
  {
  }

  /** One value of `rand(len)` with `len == |Chars| == 78`: an index into `Chars`. */
  type Draw = d: int | 0 <= d < 78

  predicate IsLower(c: char) {
    'a' <= c <= 'z'
  }

  predicate AllLower(s: string) {
    forall i :: 0 <= i < |s| ==> IsLower(s[i])
  }

  /** The string `chars[d0] + chars[d1] + ...` that a run of draws spells. */
  function Spell(ds: seq<Draw>): (s: string)
    ensures |s| == |ds|
    ensures AllLower(s)
  {
    seq(|ds|, i requires 0 <= i < |ds| => Chars[ds[i]])
  }

  /** The candidate ids an oracle yields, in order: each consumes
      `lengthOfHash + 1` draws; a tail too short for a whole candidate yields none. */
  function Candidates(draws: seq<Draw>, lengthOfHash: nat): (cs: seq<string>)
    ensures forall i :: 0 <= i < |cs| ==> |cs[i]| == lengthOfHash + 1 && AllLower(cs[i])
    decreases |draws|
  {
    if |draws| < lengthOfHash + 1 then []
    else [Spell(draws[..lengthOfHash + 1])] + Candidates(draws[lengthOfHash + 1..], lengthOfHash)
  }

  /** Some candidate in `cs` is not taken: the retry loop stops within `cs`. */
  predicate HasAbsent(cs: seq<string>, taken: set<string>) {
    exists i :: 0 <= i < |cs| && cs[i] !in taken
  }

  /** The retry-until-absent rule: the first candidate that is not taken. */
  function FirstAbsent(cs: seq<string>, taken: set<string>): (id: string)
    requires HasAbsent(cs, taken)
    ensures id !in taken
    ensures exists k :: 0 <= k < |cs| && cs[k] == id && forall j :: 0 <= j < k ==> cs[j] in taken
  {
    if cs[0] !in taken then cs[0]
    else
      assert HasAbsent(cs[1..], taken) by {
        var i :| 0 <= i < |cs| && cs[i] !in taken;
        assert cs[1..][i - 1] == cs[i];
      }
      var id := FirstAbsent(cs[1..], taken);
      assert exists k :: 0 <= k < |cs| && cs[k] == id && forall j :: 0 <= j < k ==> cs[j] in taken by {
        var k :| 0 <= k < |cs[1..]| && cs[1..][k] == id && forall j :: 0 <= j < k ==> cs[1..][j] in taken;
        assert cs[k + 1] == id;
        forall j | 0 <= j < k + 1
          ensures cs[j] in taken
        {
          if j > 0 {
            assert cs[j] == cs[1..][j - 1];
          }
        }
      }
      id
  }

  /** The id the generator settles on for a store whose ids are `taken`. */
  function GeneratedId(taken: set<string>, draws: seq<Draw>, lengthOfHash: nat): (id: string)
    requires HasAbsent(Candidates(draws, lengthOfHash), taken)
    ensures |id| == lengthOfHash + 1
    ensures AllLower(id)
    ensures id !in taken
  {
    FirstAbsent(Candidates(draws, lengthOfHash), taken)
  }

  /** One candidate as `_generate_hash_id` builds it, before and inside its retry
      loop: one character, then `lengthOfHash` more. Returns the candidate and the
      draws not yet consumed. */
  method NextCandidate(draws: seq<Draw>, lengthOfHash: nat) returns (tmp: string, rest: seq<Draw>)
    requires |draws| >= lengthOfHash + 1
    ensures Candidates(draws, lengthOfHash) == [tmp] + Candidates(rest, lengthOfHash)
    ensures rest == draws[lengthOfHash + 1..]
  {
    tmp := [Chars[draws[0]]];
    var n := 0;
    while n < lengthOfHash
      invariant 0 <= n <= lengthOfHash
      invariant tmp == Spell(draws[..n + 1])
    {
      assert Spell(draws[..n + 2]) == Spell(draws[..n + 1]) + [Chars[draws[n + 1]]];
      tmp := tmp + [Chars[draws[n + 1]]];
      n := n + 1;
    }
    rest := draws[lengthOfHash + 1..];
  }

  /** `_generate_hash_id`: draw a candidate, and draw whole new candidates until
      the store has no record under the current one. */
  method GenerateHashId(taken: set<string>, draws: seq<Draw>, lengthOfHash: nat) returns (id: string)
    requires HasAbsent(Candidates(draws, lengthOfHash), taken)
    ensures id == GeneratedId(taken, draws, lengthOfHash)
    ensures |id| == lengthOfHash + 1 && AllLower(id) && id !in taken
  {
    var rest;
    id, rest := NextCandidate(draws, lengthOfHash);
    while id in taken
      invariant HasAbsent([id] + Candidates(rest, lengthOfHash), taken)
      invariant GeneratedId(taken, draws, lengthOfHash) == FirstAbsent([id] + Candidates(rest, lengthOfHash), taken)
      decreases |rest|
    {
      var cs := [id] + Candidates(rest, lengthOfHash);
      assert cs[1..] == Candidates(rest, lengthOfHash);
      assert HasAbsent(Candidates(rest, lengthOfHash), taken) by {
        var i :| 0 <= i < |cs| && cs[i] !in taken;
        assert cs[1..][i - 1] == cs[i];
      }
      id, rest := NextCandidate(rest, lengthOfHash);
    }
  }
}
