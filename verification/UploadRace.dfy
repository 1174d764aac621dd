/** Two errors of uploads that the code calls unreachable, or a broken invariant, are reached from the empty
    system: the loser of a race can find no winner, and a deletion can complete between two reads. */
module UploadRace {
  import opened Wrappers
  import opened DocumentRecord
  import opened Steps
  import opened Catalogue
  import opened Continuations
  import opened SystemRuns

  /** Two uploads of the same bytes both find nobody holding the digest and save their objects. */
  lemma TwoUploadsSave(hash: Digest) returns (s: System)
    ensures Reachable(s)
    ensures s == System([], map[0 := hash, 1 := hash], map[], map[0 := ToCommit(hash, 0), 1 := ToCommit(hash, 1)], {}, {0, 1})
  {
    assert Run([EMPTY], []) && Last([EMPTY]) == EMPTY;
    Extend(EMPTY, BeginUpload(0, hash));
    var s1 := EMPTY.(uploads := map[0 := ToSave(hash)]);
    Extend(s1, SaveObject(0, 0));
    var s2 := s1.(uploads := map[0 := ToCommit(hash, 0)], storage := map[0 := hash], issued := {0});
    Extend(s2, BeginUpload(1, hash));
    var s3 := s2.(uploads := map[0 := ToCommit(hash, 0), 1 := ToSave(hash)]);
    Extend(s3, SaveObject(1, 1));
    s := s3.(uploads := map[0 := ToCommit(hash, 0), 1 := ToCommit(hash, 1)], storage := map[0 := hash, 1 := hash], issued := {0, 1});
    assert Next(s3, SaveObject(1, 1)) == s;
  }

  /** The first of them to commit wins and the second loses the race. */
  lemma RaceTwoUploads(hash: Digest) returns (s: System)
    ensures Reachable(s)
    ensures s == System([Fresh(0, hash)], map[0 := hash, 1 := hash], map[], map[1 := LostRace(hash, 1)], {}, {0, 1})
  {
    var s4 := TwoUploadsSave(hash);
    Extend(s4, CommitUpload(0));
    var s5 := s4.(docs := [Fresh(0, hash)], uploads := map[1 := ToCommit(hash, 1)]);
    assert s4.uploads - {0} == s5.uploads;
    Extend(s5, CommitUpload(1));
    s := s5.(uploads := map[1 := LostRace(hash, 1)]);
    assert Next(s5, CommitUpload(1)) == s;
  }

  /** The winner's ingestion fails and the winner is deleted, which releases the digest. */
  lemma DeleteWinner(s: System, hash: Digest) returns (s': System)
    requires Reachable(s) && s.docs == [Fresh(0, hash)] && 0 in s.storage
    ensures Reachable(s') && s'.uploads == s.uploads
    ensures |s'.docs| == 1 && s'.docs[0].hash == None
    ensures s'.docs[0].deletion != [] && Last(s'.docs[0].deletion).status == DeletionCompleted
  {
    var start := Scene(s.docs[0], EnvOf(s, 0));
    Stay(start, true);
    var failed := FailReplacement(start, start);
    var deleted := DeleteUntracked(start, failed);
    var steps :| Play(start, steps, true) == Some(deleted);
    Lift(s, 0, steps);
    s' := WithDocument(s, 0, deleted);
  }

  /** Before the loser looks again the winner is deleted: the loser finds no document, and
      MissingWinnerAfterRaceError is raised. */
  lemma MissingWinnerIsReachable(hash: Digest) returns (s: System, q: nat)
    ensures Reachable(s) && CanStep(s, LookAgain(q)) && s.uploads[q] == ToRedecide(hash)
    ensures Answer(s, LookAgain(q)) == Some(RaiseMissingWinner)
  {
    var raced := RaceTwoUploads(hash);
    var s1 := DeleteWinner(raced, hash);
    Extend(s1, DeleteOwnObject(1, true));
    s, q := Next(s1, DeleteOwnObject(1, true)), 1;
  }

  /** A request, at its first look or at the second one after a lost race, finds a document whose deletion
      completes before the request reads it: DeletionInvariantViolationError is raised although no invariant is
      broken. */
  lemma InvariantErrorIsReachable(hash: Digest, again: bool) returns (s: System, q: nat)
    ensures Reachable(s) && CanStep(s, ReadDeletionState(q)) && s.uploads[q] == Found(hash, 0, again)
    ensures Answer(s, ReadDeletionState(q)) == Some(RaiseDeletionInvariantViolation(0))
  {
    var raced := RaceTwoUploads(hash);
    var found: System;
    if again {
      Extend(raced, DeleteOwnObject(1, true));
      var ready := Next(raced, DeleteOwnObject(1, true));
      Extend(ready, LookAgain(1));
      found, q := Next(ready, LookAgain(1)), 1;
    } else {
      Extend(raced, BeginUpload(2, hash));
      found, q := Next(raced, BeginUpload(2, hash)), 2;
    }
    s := DeleteWinner(found, hash);
  }
}
