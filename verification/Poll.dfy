/** The poll server's vote counts: a write-back cache over a database file. */
module Poll {
  import opened Words

  const MAXCHOICE := 20

  type Votes = seq<int>

  predicate VotesOk(v: Votes) {
    |v| == MAXCHOICE && forall i | 0 <= i < MAXCHOICE :: 0 <= v[i] < WORD
  }

  /** A record as votes: too long a record is cut, too short a one is filled up with zeros. */
  function Unpack(record: seq<int>): (v: Votes)
    requires forall i | 0 <= i < |record| :: 0 <= record[i] < WORD
    ensures VotesOk(v)
  {
    seq(MAXCHOICE, i requires 0 <= i < MAXCHOICE => if i < |record| then record[i] else 0)
  }

  lemma UnpackVotes(v: Votes)
    requires VotesOk(v)
    ensures Unpack(v) == v
  {
  }

  // ---- What the operations mean on a plain table of votes ----

  /** The votes of a poll in a table; a poll that is not there has none. */
  function Get(plain: map<string, Votes>, board: string): Votes {
    if board in plain then plain[board] else Unpack([])
  }

  /** All counts but that of one choice are the same; a choice that is not valid changes none. */
  predicate OnlyChoice(v: Votes, r: Votes, choice: int) {
    VotesOk(v) && VotesOk(r) && forall k | 0 <= k < MAXCHOICE && k != choice :: r[k] == v[k]
  }

  function Magnitude(x: int): int {
    if x < 0 then -x else x
  }

  /** A cached poll. */
  datatype Entry = Entry(dirty: bool, votes: Votes)

  /** The entries that are pushed out are others, each once; and whether writing them works. */
  predicate Victims(board: string, victims: seq<(string, bool)>) {
    && (forall i | 0 <= i < |victims| :: victims[i].0 != board)
    && (forall i, j | 0 <= i < j < |victims| :: victims[i].0 != victims[j].0)
  }

  lemma NotYet(board: string, victims: seq<(string, bool)>, i: nat)
    requires i < |victims| && board == victims[i].0 && forall j, k | 0 <= j < k < |victims| :: victims[j].0 != victims[k].0
    ensures (board, false) !in victims[..i]
    ensures forall k | i < k < |victims| :: victims[k].0 != board
  {
  }

  /** A vote, and the entries that it pushes out of the cache. */
  datatype Ballot = Ballot(board: string, choice: int, victims: seq<(string, bool)>)

  predicate AllWritten(victims: seq<(string, bool)>) {
    forall i | 0 <= i < |victims| :: victims[i].1
  }

  /** How many votes there are for a choice of a poll. */
  function Cast(ballots: seq<Ballot>, board: string, choice: int): nat {
    if ballots == [] then 0 else
      var last := ballots[|ballots| - 1];
      Cast(ballots[..|ballots| - 1], board, choice) + if last.board == board && last.choice == choice then 1 else 0
  }

  /** Each count is what it was and the votes for it, as far as a word holds it. */
  ghost predicate Raised(v: Votes, r: Votes, ballots: seq<Ballot>, board: string) {
    VotesOk(v) && VotesOk(r) && forall k | 0 <= k < MAXCHOICE :: r[k] == (v[k] + Cast(ballots, board, k)) % WORD
  }

  lemma OneCast(v: Votes, before: Votes, after: Votes, ballots: seq<Ballot>, board: string)
    requires ballots != [] && Raised(v, before, ballots[..|ballots| - 1], board)
    requires var last := ballots[|ballots| - 1];
             if last.board != board then after == before
             else OnlyChoice(before, after, last.choice)
                  && (0 <= last.choice < MAXCHOICE ==> after[last.choice] == (before[last.choice] + 1) % WORD)
    ensures Raised(v, after, ballots, board)
  {
    var last := ballots[|ballots| - 1];
    forall k | 0 <= k < MAXCHOICE ensures after[k] == (v[k] + Cast(ballots, board, k)) % WORD {
      if last.board == board && k == last.choice {
        assert ((v[k] + Cast(ballots[..|ballots| - 1], board, k)) % WORD + 1) % WORD == (v[k] + Cast(ballots, board, k)) % WORD;
      }
    }
  }

  class PollStore {
    var db: map<string, seq<int>>
    var cache: map<string, Entry>
    ghost var plain: map<string, Votes>   // the table without a cache that the store must look like

    ghost predicate DbOk()
      reads this`db
    {
      forall b | b in db :: forall i | 0 <= i < |db[b]| :: 0 <= db[b][i] < WORD
    }

    /** What is stored in the file for a poll. */
    ghost function Stored(board: string): Votes
      requires DbOk()
      reads this`db
    {
      if board in db then Unpack(db[board]) else Unpack([])
    }

    /** What a poll shows: its entry, or else the file. */
    ghost function Shown(board: string): Votes
      requires DbOk()
      reads this`db, this`cache
    {
      if board in cache then cache[board].votes else Stored(board)
    }

    ghost predicate Valid()
      reads this
    {
      && DbOk()
      && (forall b | b in cache :: VotesOk(cache[b].votes) && (!cache[b].dirty ==> cache[b].votes == Stored(b)))
      && forall b :: Shown(b) == Get(plain, b)
    }

    constructor (db: map<string, seq<int>>)
      requires forall b | b in db :: forall i | 0 <= i < |db[b]| :: 0 <= db[b][i] < WORD
      ensures Valid() && this.db == db && forall b :: Get(plain, b) == if b in db then Unpack(db[b]) else Unpack([])
    {
      this.db := db;
      cache := map[];
      plain := map b | b in db :: Unpack(db[b]);
    }

    /** Writes an entry to the file; if that fails it stays dirty. */
    method FlushEntry(board: string, ok: bool)
      requires Valid() && board in cache
      modifies this`db, this`cache
      ensures Valid() && cache.Keys == old(cache).Keys
      ensures ok ==> !cache[board].dirty && Stored(board) == cache[board].votes
      ensures !ok ==> db == old(db) && cache == old(cache)
      ensures forall b | b in cache && b != board :: cache[b] == old(cache)[b]
      ensures forall b | b != board :: Stored(b) == old(Stored(b))
      ensures cache[board].votes == old(cache)[board].votes
    {
      if ok {
        UnpackVotes(cache[board].votes);
        db := db[board := cache[board].votes];
        cache := cache[board := cache[board].(dirty := false)];
        forall b ensures Shown(b) == Get(plain, b) {
          assert old(Shown(b)) == Get(old(plain), b);
        }
      }
    }

    /** Drops an entry from the cache. Votes are lost only if they could not be written. */
    method FreeEntry(board: string, ok: bool)
      requires Valid() && board in cache
      modifies this`db, this`cache, this`plain
      ensures Valid() && cache.Keys == old(cache).Keys - {board}
      ensures forall b | b in cache :: cache[b] == old(cache)[b]
      ensures forall b | b != board :: Stored(b) == old(Stored(b))
      ensures plain == if ok || !old(cache)[board].dirty then old(plain) else old(plain)[board := old(Stored(board))]
      ensures Get(plain, board) == Get(old(plain), board) <==> ok || old(cache)[board].votes == old(Stored(board))
    {
      assert Shown(board) == Get(plain, board);
      if cache[board].dirty {
        FlushEntry(board, ok);
      }
      if cache[board].dirty {
        plain := plain[board := Stored(board)];
      }
      cache := cache - {board};
      forall b ensures Shown(b) == Get(plain, b) {
        assert old(Shown(b)) == Get(old(plain), b);
      }
    }

    /** Writes all dirty entries to the file; `ok` tells for which of them that works. The entries that
        could not be written stay dirty, and if there are none the file alone shows every poll. */
    method FlushVotes(order: seq<string>, ok: string -> bool)
      requires Valid() && forall b :: b in order <==> b in cache
      modifies this`db, this`cache
      ensures Valid() && cache.Keys == old(cache).Keys
      ensures forall b | b in cache ::
                cache[b].votes == old(cache)[b].votes && (cache[b].dirty <==> old(cache)[b].dirty && !ok(b))
      ensures (forall b | b in cache :: !cache[b].dirty) ==> forall b :: Stored(b) == Get(plain, b)
    {
      hide Valid, Unpack, VotesOk;
      for i := 0 to |order|
        invariant Valid() && cache.Keys == old(cache).Keys
        invariant forall b | b in cache :: cache[b].votes == old(cache)[b].votes
        invariant forall b | b in cache ::
                    cache[b].dirty <==> if b in order[..i] then old(cache)[b].dirty && !ok(b) else old(cache)[b].dirty
      {
        assert order[..i + 1] == order[..i] + [order[i]];
        if cache[order[i]].dirty {
          FlushEntry(order[i], ok(order[i]));
        }
      }
      assert order[..|order|] == order;
      if forall b | b in cache :: !cache[b].dirty {
        NothingDirty();
      }
    }

    /** With no entry dirty the file alone shows every poll as it is. */
    lemma NothingDirty()
      requires Valid() && forall b | b in cache :: !cache[b].dirty
      ensures DbOk() && forall b :: Stored(b) == Get(plain, b)
    {
      forall b ensures Stored(b) == Get(plain, b) {
        assert Shown(b) == Get(plain, b);
      }
    }

    /** An entry that is pushed out loses votes if it is dirty and cannot be written. */
    ghost predicate Loses(board: string, victims: seq<(string, bool)>)
      reads this`cache
    {
      (board, false) in victims && board in cache && cache[board].dirty
    }

    /** Finds or makes the entry of a poll; a new entry may push others out of the cache, and writing
        them may fail. */
    method Fetch(board: string, victims: seq<(string, bool)>) returns (e: Entry)
      requires Valid() && Victims(board, victims)
      modifies this`db, this`cache, this`plain
      ensures Valid() && board in cache && e == cache[board] && e.votes == Get(plain, board) == old(Get(plain, board))
      ensures forall b :: Get(plain, b) ==
                if old(board !in cache && Loses(b, victims)) then old(Stored(b)) else old(Get(plain, b))
    {
      hide Unpack;
      assert Shown(board) == Get(plain, board);
      if board !in cache {
        var votes := Unpack([]);
        if board in db {
          votes := Unpack(db[board]);
        }
        ghost var before := cache;
        cache := cache[board := Entry(false, votes)];
        StillShown(before, board);
        PushOut(board, victims);
      }
      assert Shown(board) == Get(plain, board);
      e := cache[board];
    }

    /** An entry that has been read shows what the file shows. */
    lemma StillShown(before: map<string, Entry>, board: string)
      requires DbOk() && board !in before && cache == before[board := Entry(false, Stored(board))]
      requires forall b | b in before :: VotesOk(before[b].votes) && (!before[b].dirty ==> before[b].votes == Stored(b))
      requires forall b :: (if b in before then before[b].votes else Stored(b)) == Get(plain, b)
      ensures Valid()
    {
    }

    /** Entries are pushed out of the cache. */
    method PushOut(board: string, victims: seq<(string, bool)>)
      requires Valid() && Victims(board, victims) && board in cache
      modifies this`db, this`cache, this`plain
      ensures Valid() && board in cache && cache[board] == old(cache)[board]
      ensures forall b :: Get(plain, b) == if old(Loses(b, victims)) then old(Stored(b)) else old(Get(plain, b))
    {
      hide Valid, Unpack, VotesOk;
      DbFine();
      for i := 0 to |victims|
        invariant Valid() && DbOk() && board in cache && cache[board] == old(cache)[board]
        invariant forall k | i <= k < |victims| :: var b := victims[k].0;
                    Stored(b) == old(Stored(b)) && (b in cache <==> b in old(cache)) && (b in cache ==> cache[b] == old(cache)[b])
        invariant forall b :: Get(plain, b) == if old(Loses(b, victims[..i])) then old(Stored(b)) else old(Get(plain, b))
      {
        assert victims[..i + 1] == victims[..i] + [victims[i]];
        var (b, ok) := victims[i];
        NotYet(b, victims, i);
        if b in cache {
          FreeEntry(b, ok);
          DbFine();
        }
      }
      assert victims[..|victims|] == victims;
    }

    lemma DbFine()
      requires Valid()
      ensures DbOk()
    {
    }

    /** Stores new votes of a poll in its entry. */
    method Update(board: string, votes: Votes)
      requires Valid() && board in cache && VotesOk(votes)
      modifies this`cache, this`plain
      ensures Valid() && plain == old(plain)[board := votes]
    {
      cache := cache[board := Entry(true, votes)];
      plain := plain[board := votes];
      forall b ensures Shown(b) == Get(plain, b) {
        assert old(Shown(b)) == Get(old(plain), b);
      }
    }

    /** Counts a vote and returns all counts of the poll; no valid choice only asks for them. */
    method Vote(board: string, choice: int, victims: seq<(string, bool)>) returns (votes: Votes)
      requires Valid() && Victims(board, victims)
      modifies this`db, this`cache, this`plain
      ensures Valid() && OnlyChoice(old(Get(plain, board)), votes, choice)
      ensures 0 <= choice < MAXCHOICE ==> votes[choice] == (old(Get(plain, board))[choice] + 1) % WORD
      ensures forall b :: Get(plain, b) ==
                if b == board then votes
                else if old(board !in cache && Loses(b, victims)) then old(Stored(b)) else old(Get(plain, b))
    {
      var e := Fetch(board, victims);
      votes := e.votes;
      if choice >= 0 && choice < MAXCHOICE {
        votes := votes[choice := (votes[choice] + 1) % WORD];
        Update(board, votes);
      }
    }

    /** Any series of votes: if no entry that is pushed out is lost, each count goes up by the number of
        votes that have been cast for it, modulo 2^32. */
    method VoteAll(ballots: seq<Ballot>)
      requires Valid()
      requires forall i | 0 <= i < |ballots| :: Victims(ballots[i].board, ballots[i].victims) && AllWritten(ballots[i].victims)
      modifies this`db, this`cache, this`plain
      ensures Valid() && forall b :: Raised(old(Get(plain, b)), Get(plain, b), ballots, b)
    {
      hide Valid, VotesOk, Victims;
      ghost var start := plain;
      NoneCast(start);
      for i := 0 to |ballots|
        invariant Valid() && forall b :: Raised(Get(start, b), Get(plain, b), ballots[..i], b)
      {
        ghost var before := plain;
        var votes := Vote(ballots[i].board, ballots[i].choice, ballots[i].victims);
        assert ballots[..i + 1][..i] == ballots[..i];
        forall b ensures Raised(Get(start, b), Get(plain, b), ballots[..i + 1], b) {
          assert !Loses(b, ballots[i].victims);
          OneCast(Get(start, b), Get(before, b), Get(plain, b), ballots[..i + 1], b);
        }
      }
      assert ballots[..|ballots|] == ballots;
    }

    /** Before any vote. */
    lemma NoneCast(start: map<string, Votes>)
      requires Valid() && start == plain
      ensures forall b :: Raised(Get(start, b), Get(plain, b), [], b)
    {
      forall b ensures Raised(Get(start, b), Get(plain, b), [], b) {
        assert Shown(b) == Get(plain, b);
      }
    }

    /** Adjusts a count by some amount and returns all counts of the poll. */
    method Vote2(board: string, choice: int, adjVoteBy: int, victims: seq<(string, bool)>) returns (votes: Votes)
      requires Valid() && Victims(board, victims)
      modifies this`db, this`cache, this`plain
      ensures Valid() && OnlyChoice(old(Get(plain, board)), votes, choice)
      ensures 0 <= choice < MAXCHOICE ==>
                var count := old(Get(plain, board))[choice] + adjVoteBy;
                votes[choice] == if count < 0 then 0 else count % WORD
      ensures forall b :: Get(plain, b) ==
                if b == board then votes
                else if old(board !in cache && Loses(b, victims)) then old(Stored(b)) else old(Get(plain, b))
    {
      var e := Fetch(board, victims);
      votes := e.votes;
      if choice >= 0 && choice < MAXCHOICE {
        if adjVoteBy < 0 && Magnitude(adjVoteBy) > votes[choice] {
          votes := votes[choice := 0];
        } else {
          votes := votes[choice := (votes[choice] + adjVoteBy) % WORD];
        }
        Update(board, votes);
      }
    }

    /** Removes a poll; the result tells only whether the file had it. */
    method Delete(board: string) returns (ret: int)
      requires Valid()
      modifies this`db, this`cache, this`plain
      ensures Valid() && Get(plain, board) == Unpack([])
      ensures forall b | b != board :: Get(plain, b) == Get(old(plain), b)
      ensures ret == if board in old(db) then 0 else -1
    {
      if board in cache {
        cache := cache - {board};
      }
      ret := if board in db then 0 else -1;
      db := db - {board};
      plain := plain - {board};
      forall b ensures Shown(b) == Get(plain, b) {
        assert old(Shown(b)) == Get(old(plain), b);
      }
    }
  }
}
