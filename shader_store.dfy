/**
 * The gallery store behind `save_shader` and `retrieve_shaders` of backend/main.py.
 * The MongoDB collection is a sequence of records in insertion order; `_id` is a
 * counter the store hands out.
 */
module ShaderStore {
  import opened Wrappers
  import opened Text

  datatype ShaderRecord = ShaderRecord(id: nat, prompt: string, code: string, description: string, timestamp: int)

  datatype SaveError = AlreadySaved(existingId: nat)

  /** pymongo's `skip` refuses a negative count with a ValueError. */
  datatype PageError = NegativeSkip(skip: int)

  const PageSize: nat := 6

  /** `prompt.strip().lower()`: the form in which prompts are stored and looked up. */
  function Normalize(prompt: string): (n: string)
  {
    Lower(Trim(Py, prompt))
  }

  /** Normalising twice changes nothing more: a stored prompt is its own normal form. */
  lemma NormalizeIdempotent(prompt: string)
    ensures Normalize(Normalize(prompt)) == Normalize(prompt)
  {
    NormalizeIgnoresCase(Trim(Py, prompt));
    TrimTwice(Trim(Py, prompt));
  }

  lemma TrimTwice(s: string)
    ensures Trim(Py, Trim(Py, s)) == Trim(Py, s)
  {
    TrimOfTrimmed(Py, Trim(Py, s));
  }

  /** Prompts that differ only in ASCII case are stored alike. */
  lemma NormalizeIgnoresCase(prompt: string)
    ensures Normalize(Lower(prompt)) == Normalize(prompt)
  {
    TrimStartLower(prompt);
    var t := TrimStart(Py, prompt);
    TrimEndLower(t);
    LowerTwice(Trim(Py, prompt));
  }

  lemma LowerTwice(s: string)
    ensures Lower(Lower(s)) == Lower(s)
  {
  }

  lemma {:induction false} TrimStartLower(s: string)
    ensures TrimStart(Py, Lower(s)) == Lower(TrimStart(Py, s))
    decreases |s|
  {
    if s != [] {
      var l := Lower(s);
      LowerKeepsPySpace(s[0]);
      assert l[0] == LowerChar(s[0]);
      if IsPySpace(s[0]) {
        assert l[1..] == Lower(s[1..]);
        TrimStartLower(s[1..]);
        assert TrimStart(Py, l) == TrimStart(Py, l[1..]);
      } else {
        assert TrimStart(Py, l) == l;
      }
    }
  }

  lemma {:induction false} TrimEndLower(s: string)
    ensures TrimEnd(Py, Lower(s)) == Lower(TrimEnd(Py, s))
    decreases |s|
  {
    if s != [] {
      var l := Lower(s);
      LowerKeepsPySpace(s[|s| - 1]);
      assert l[|l| - 1] == LowerChar(s[|s| - 1]);
      if IsPySpace(s[|s| - 1]) {
        assert l[..|s| - 1] == Lower(s[..|s| - 1]);
        TrimEndLower(s[..|s| - 1]);
        assert TrimEnd(Py, l) == TrimEnd(Py, l[..|l| - 1]);
      } else {
        assert TrimEnd(Py, l) == l;
      }
    }
  }

  lemma LowerKeepsPySpace(c: char)
    ensures IsPySpace(LowerChar(c)) <==> IsPySpace(c)
  {
    if 'A' <= c <= 'Z' {
      assert 'a' <= LowerChar(c) <= 'z';
    }
  }

  /** No two records share a (prompt, code) pair, and ids grow with insertion order. */
  ghost predicate DistinctEntries(records: seq<ShaderRecord>, nextId: nat)
  {
    (forall i, j :: 0 <= i < j < |records| ==>
       (records[i].prompt, records[i].code) != (records[j].prompt, records[j].code)
       && records[i].id < records[j].id)
    && (forall i :: 0 <= i < |records| ==> records[i].id < nextId)
  }

  /** `find(...).skip((page - 1) * 6).limit(6)` on records in natural order. */
  function PageOf(records: seq<ShaderRecord>, page: int): (p: seq<ShaderRecord>)
    requires page >= 1
  {
    var skip := (page - 1) * PageSize;
    if skip >= |records| then [] else records[skip..Min(skip + PageSize, |records|)]
  }

  function Min(a: int, b: int): int
  {
    if a <= b then a else b
  }

  /** Each page holds at most six records, and the records it holds start at offset `(page - 1) * 6`. */
  lemma PageShape(records: seq<ShaderRecord>, page: int)
    requires page >= 1
    ensures |PageOf(records, page)| <= PageSize
    ensures forall k :: 0 <= k < |PageOf(records, page)| ==>
      (page - 1) * PageSize + k < |records| && PageOf(records, page)[k] == records[(page - 1) * PageSize + k]
    ensures |PageOf(records, page)| == Min(PageSize, Max0(|records| - (page - 1) * PageSize))
  {
  }

  function Max0(a: int): nat
  {
    if a < 0 then 0 else a
  }

  /** Reading pages 1 to `n` in order gives the first `6 * n` records: nothing skipped, nothing repeated. */
  lemma {:induction false} PagesCoverRecords(records: seq<ShaderRecord>, n: nat)
    ensures Pages(records, n) == records[..Min(n * PageSize, |records|)]
  {
    if n > 0 {
      PagesCoverRecords(records, n - 1);
      PageExtendsPrefix(records, n);
    }
  }

  /** Page `n` continues the prefix that pages 1 to `n - 1` cover. */
  lemma PageExtendsPrefix(records: seq<ShaderRecord>, n: nat)
    requires n >= 1
    ensures records[..Min((n - 1) * PageSize, |records|)] + PageOf(records, n)
         == records[..Min(n * PageSize, |records|)]
  {
    var skip := (n - 1) * PageSize;
    assert n * PageSize == skip + PageSize;
    if skip < |records| {
      var hi := Min(skip + PageSize, |records|);
      assert records[..hi] == records[..skip] + records[skip..hi];
    }
  }

  /** Pages 1 to `n`, one after the other. */
  function Pages(records: seq<ShaderRecord>, n: nat): seq<ShaderRecord>
  {
    if n == 0 then [] else Pages(records, n - 1) + PageOf(records, n)
  }

  /** A page that is not full is the last one: every later page is empty. */
  lemma ShortPageIsLast(records: seq<ShaderRecord>, page: int, later: int)
    requires 1 <= page < later
    requires |PageOf(records, page)| < PageSize
    ensures PageOf(records, later) == []
  {
    assert (later - 1) * PageSize >= page * PageSize;
  }

  /** The MongoDB collection the gallery reads and writes. */
  class ShaderCollection {
    var records: seq<ShaderRecord>
    var nextId: nat

    ghost predicate Valid()
      reads this
    {
      DistinctEntries(records, nextId)
    }

    constructor ()
      ensures Valid()
      ensures records == [] && nextId == 0
    {
      records := [];
      nextId := 0;
    }

    /** `find_one({"prompt": prompt, "code": code})`: the first record with both fields equal. */
    method FindOne(prompt: string, code: string) returns (found: Option<ShaderRecord>)
      ensures found.None? <==> forall i :: 0 <= i < |records| ==> !(records[i].prompt == prompt && records[i].code == code)
      ensures found.Some? ==> exists i :: 0 <= i < |records| && records[i] == found.value
      ensures found.Some? ==> found.value.prompt == prompt && found.value.code == code
    {
      for i := 0 to |records|
        invariant forall k :: 0 <= k < i ==> !(records[k].prompt == prompt && records[k].code == code)
      {
        if records[i].prompt == prompt && records[i].code == code {
          return Some(records[i]);
        }
      }
      return None;
    }

    /**
     * `save_shader`: store the normalised prompt with the code, the description and
     * the current time, unless a record with that prompt and that code exists.
     */
    method Save(prompt: string, code: string, description: string, now: int) returns (r: Result<nat, SaveError>)
      requires Valid()
      modifies this
      ensures Valid()
      ensures r.Failure? <==> exists i :: 0 <= i < |old(records)| &&
                                old(records)[i].prompt == Normalize(prompt) && old(records)[i].code == code
      ensures r.Failure? ==> records == old(records) && nextId == old(nextId)
      ensures r.Failure? ==> exists i :: 0 <= i < |records| && records[i].id == r.error.existingId
                               && records[i].prompt == Normalize(prompt) && records[i].code == code
      ensures r.Success? ==> r.value == old(nextId) && nextId == old(nextId) + 1
      ensures r.Success? ==>
        records == old(records) + [ShaderRecord(old(nextId), Normalize(prompt), code, description, now)]
    {
      var normalized := Lower(Trim(Py, prompt));
      var existing := FindOne(normalized, code);
      if existing.Some? {
        return Failure(AlreadySaved(existing.value.id));
      }
      var id := nextId;
      records := records + [ShaderRecord(id, normalized, code, description, now)];
      nextId := nextId + 1;
      return Success(id);
    }

    /** `retrieve_shaders(page)`: the records of one page of six, in natural order. */
    method Retrieve(page: int) returns (r: Result<seq<ShaderRecord>, PageError>)
      ensures page < 1 ==> r == Failure(NegativeSkip((page - 1) * PageSize))
      ensures page >= 1 ==> r == Success(PageOf(records, page))
    {
      var skip := (page - 1) * PageSize;
      if skip < 0 {
        return Failure(NegativeSkip(skip));
      }
      // The cursor MongoDB hands back for the query.
      var cursor := if skip >= |records| then [] else records[skip..Min(skip + PageSize, |records|)];
      var paginated: seq<ShaderRecord> := [];
      for k := 0 to |cursor|
        invariant paginated == cursor[..k]
      {
        paginated := paginated + [cursor[k]];
      }
      assert cursor[..|cursor|] == cursor;
      return Success(paginated);
    }
  }
}
