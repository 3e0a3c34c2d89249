/** Invite-code generation, lib/code-generation.ts. The random generator is a
    `CodeSource` handing out a fixed stream of candidates; the existence check
    goes to the store. */
module CodeGeneration {
  import opened Strings
  import opened Airtable
  import CodeValidation

  /** Characters that are easy to tell apart: no 0/O and no 1/I. */
  const CODE_ALPHABET := "ABCDEFGHJKLMNPQRSTUVWXYZ23456789"
  const CODE_LENGTH := 8
  const DEFAULT_MAX_ATTEMPTS := 10

  /** The alphabet's characters, by range. */
  predicate InAlphabet(c: char) {
    ('A' <= c <= 'Z' && c != 'I' && c != 'O') || ('2' <= c <= '9')
  }

  /** The alphabet has 32 symbols, each an upper-case letter other than I or
      O, or a digit from 2 to 9; so 0, 1, I and O never appear in a code. */
  lemma AlphabetAvoidsLookalikes()
    ensures |CODE_ALPHABET| == 32
    ensures forall i :: 0 <= i < |CODE_ALPHABET| ==> InAlphabet(CODE_ALPHABET[i])
    ensures '0' !in CODE_ALPHABET && '1' !in CODE_ALPHABET && 'I' !in CODE_ALPHABET && 'O' !in CODE_ALPHABET
  {
  }

  /** A character is in the alphabet exactly when it is in one of its
      ranges. */
  lemma AlphabetByRange(c: char)
    ensures c in CODE_ALPHABET <==> InAlphabet(c)
  {
    AlphabetAvoidsLookalikes();
    if InAlphabet(c) {
      if 'A' <= c <= 'Z' {
        var offset := if c > 'O' then 2 else if c > 'I' then 1 else 0;
        assert CODE_ALPHABET[(c as int) - ('A' as int) - offset] == c;
      } else {
        assert CODE_ALPHABET[24 + (c as int) - ('2' as int)] == c;
      }
    }
  }

  /** What `generateSecureCode` produces: eight symbols of the alphabet. */
  predicate IsGeneratedCode(code: string) {
    |code| == CODE_LENGTH && forall i :: 0 <= i < |code| ==> InAlphabet(code[i])
  }

  /** Every generated code passes the validation's format check. */
  lemma GeneratedCodeIsWellFormed(code: string)
    requires IsGeneratedCode(code)
    ensures CodeValidation.IsValidFormat(code)
  {
    forall i | 0 <= i < |code| ensures CodeValidation.IsFormatChar(code[i]) {
      assert InAlphabet(code[i]);
    }
  }

  /** Normalising a generated code leaves it as it is, so the existence check
      asks for the code itself. */
  lemma GeneratedCodeIsNormal(code: string)
    requires IsGeneratedCode(code)
    ensures UpperTrim(code) == code
  {
    GeneratedCodeIsWellFormed(code);
    assert Upper(code) == code by {
      forall i | 0 <= i < |code| ensures UpperChar(code[i]) == code[i] {
        assert CodeValidation.IsFormatChar(code[i]);
      }
    }
    assert CodeValidation.IsFormatChar(code[0]) && CodeValidation.IsFormatChar(code[|code| - 1]);
    TrimmedIsFixed(code);
  }

  /** The generator: `draw(i)` is the i-th candidate it hands out, and
      `drawn` the number handed out so far. */
  class CodeSource {
    const draw: nat -> string
    var drawn: nat

    /** Every candidate is a code of the alphabet, as nanoid guarantees. */
    ghost predicate Sound() {
      forall i: nat :: IsGeneratedCode(draw(i))
    }

    constructor(draw: nat -> string)
      requires forall i: nat :: IsGeneratedCode(draw(i))
      ensures this.draw == draw && drawn == 0
      ensures Sound()
    {
      this.draw := draw;
      drawn := 0;
    }

    /** `generateSecureCode` */
    method Next() returns (code: string)
      requires Sound()
      modifies this
      ensures code == draw(old(drawn)) && drawn == old(drawn) + 1
      ensures IsGeneratedCode(code)
    {
      code := draw(drawn);
      drawn := drawn + 1;
    }
  }

  /** What `generateUniqueCode` resolves to or throws. */
  datatype Generation = Generated(code: string) | Exhausted(message: string)

  function ExhaustedMessage(maxAttempts: int): string {
    "Failed to generate unique code after " + IntToString(maxAttempts) + " attempts"
  }

  /** Whether the store reports the generated `code` as taken (a generated
      code is its own normal form); a failed request reads as free. */
  predicate Taken(base: Base, code: string) {
    RecordsFound(base.guestsWithCode(code))
  }

  /** `checkCodeExists` on a generated code: the query is for the code
      itself. */
  method CheckGeneratedCode(base: Base, code: string) returns (taken: bool)
    requires IsGeneratedCode(code)
    modifies base
    ensures taken == Taken(base, code)
    ensures base.log == old(base.log) + [FindGuests(code)]
  {
    taken := CheckCodeExists(base, code);
    GeneratedCodeIsNormal(code);
  }

  /** Every one of the `count` candidates from `start` on is taken. */
  predicate AllTaken(base: Base, draw: nat -> string, start: nat, count: nat) {
    count == 0 || (AllTaken(base, draw, start, count - 1) && Taken(base, draw(start + count - 1)))
  }

  /** `AllTaken` read index by index. */
  lemma {:induction false} AllTakenEach(base: Base, draw: nat -> string, start: nat, count: nat, j: nat)
    requires AllTaken(base, draw, start, count) && start <= j < start + count
    ensures Taken(base, draw(j))
    decreases count
  {
    if j < start + count - 1 {
      AllTakenEach(base, draw, start, count - 1, j);
    }
  }

  /** The existence queries for `count` candidates from `start` on. */
  function Queries(draw: nat -> string, start: nat, count: nat): seq<Request> {
    if count == 0 then [] else Queries(draw, start, count - 1) + [FindGuests(draw(start + count - 1))]
  }

  /** `generateUniqueCode`: draw candidates until one is free, at most
      `maxAttempts` times. The result is the first free candidate, found
      after exactly as many draws and queries as candidates tried; when all
      are taken the call fails after `maxAttempts` draws and queries, or none
      when `maxAttempts` is not positive. */
  method GenerateUniqueCode(source: CodeSource, base: Base, maxAttempts: int)
    returns (result: Generation, ghost attempts: nat)
    requires source.Sound()
    modifies source, base
    ensures source.drawn == old(source.drawn) + attempts
    ensures base.log == old(base.log) + Queries(source.draw, old(source.drawn), attempts)
    ensures result.Generated? ==>
      && 1 <= attempts <= maxAttempts
      && AllTaken(base, source.draw, old(source.drawn), attempts - 1)
      && result.code == source.draw(old(source.drawn) + attempts - 1)
      && !Taken(base, result.code)
      && IsGeneratedCode(result.code)
    ensures result.Exhausted? ==>
      && attempts == (if maxAttempts > 0 then maxAttempts else 0)
      && AllTaken(base, source.draw, old(source.drawn), attempts)
      && result.message == ExhaustedMessage(maxAttempts)
  {
    var i := 0;
    attempts := 0;
    while i < maxAttempts
      invariant attempts == i <= (if maxAttempts > 0 then maxAttempts else 0)
      invariant source.drawn == old(source.drawn) + attempts
      invariant base.log == old(base.log) + Queries(source.draw, old(source.drawn), attempts)
      invariant AllTaken(base, source.draw, old(source.drawn), attempts)
    {
      var code := source.Next();
      var taken := CheckGeneratedCode(base, code);
      assert Queries(source.draw, old(source.drawn), attempts + 1)
        == Queries(source.draw, old(source.drawn), attempts) + [FindGuests(code)];
      i, attempts := i + 1, attempts + 1;
      if !taken {
        return Generated(code), attempts;
      }
    }
    return Exhausted(ExhaustedMessage(maxAttempts)), attempts;
  }
}
