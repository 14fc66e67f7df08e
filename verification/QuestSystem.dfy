// The class CooperativeQuestSystem of src/game/CooperativeQuests.cpp (quests). Each call is
// proved equal to a step of QuestModel.
module QuestSystem {
  import opened Words
  import opened Roster
  import opened QuestModel

  function WithQuest(w: World, questId: uint32, quest: Quest): World {
    w.(quests := w.quests[questId := quest])
  }

  class CooperativeQuestSystem {
    var initialized: bool
    var quests: map<uint32, Quest>
    var playerQuests: Lists
    var nextQuestId: uint32

    ghost function Snapshot(): World
      reads this
    {
      World(initialized, quests, playerQuests)
    }

    constructor ()
      ensures Snapshot() == World(false, map[], map[]) && nextQuestId == 1
    {
      initialized, quests, playerQuests, nextQuestId := false, map[], map[], 1;
    }

    // The default quests are offered before the flag is set, which drops them.
    method Initialize()
      modifies this
      ensures Snapshot() == old(Snapshot()).(initialized := true) && nextQuestId == old(nextQuestId)
    {
      if initialized {
        return;
      }
      InitializeDefaultQuests();
      initialized := true;
    }

    method InitializeDefaultQuests()
      modifies this
      ensures !old(initialized) ==> Snapshot() == old(Snapshot()) && nextQuestId == old(nextQuestId)
      ensures old(initialized) ==>
        var w := WithQuest(old(Snapshot()), old(nextQuestId), MAIN_QUEST);
        Snapshot() == WithQuest(w, Add32(old(nextQuestId), 1), SIDE_QUEST)
    {
      AddQuest(0, MAIN_QUEST);
      AddQuest(0, SIDE_QUEST);
    }

    // The id 0 asks for the next free one.
    method AddQuest(questId: uint32, quest: Quest)
      modifies this
      ensures !old(initialized) ==> Snapshot() == old(Snapshot()) && nextQuestId == old(nextQuestId)
      ensures old(initialized) ==>
        && Snapshot() == WithQuest(old(Snapshot()), if questId == 0 then old(nextQuestId) else questId, quest)
        && nextQuestId == if questId == 0 then Add32(old(nextQuestId), 1) else old(nextQuestId)
    {
      if !initialized {
        return;
      }
      var id := questId;
      if id == 0 {
        id := nextQuestId;
        nextQuestId := Add32(nextQuestId, 1);
      }
      quests := quests[id := quest];
    }

    method CheckQuestPrerequisites(questId: uint32) returns (r: bool)
      ensures r <==> questId in quests && PrerequisitesMet(Snapshot(), quests[questId])
    {
      if questId !in quests {
        return false;
      }
      var required := quests[questId].requiredQuests;
      for i := 0 to |required|
        invariant forall k :: 0 <= k < i ==> required[k] in quests && quests[required[k]].state == Completed
      {
        if required[i] !in quests || quests[required[i]].state != Completed {
          return false;
        }
      }
      return true;
    }

    method CanPlayerJoinQuest(questId: uint32) returns (r: bool)
      ensures r <==> questId in quests && quests[questId].isCooperative && HasSpace(quests[questId])
    {
      if questId !in quests || !quests[questId].isCooperative {
        return false;
      }
      return |quests[questId].participants| < quests[questId].maxParticipants;
    }

    method ValidateQuestStart(questId: uint32) returns (r: bool)
      ensures r <==> (
        && questId in quests && quests[questId].state == Available
        && PrerequisitesMet(Snapshot(), quests[questId])
        && (quests[questId].isCooperative ==> HasSpace(quests[questId])))
    {
      if questId !in quests || quests[questId].state != Available {
        return false;
      }
      var met := CheckQuestPrerequisites(questId);
      if !met {
        return false;
      }
      if quests[questId].isCooperative {
        var can := CanPlayerJoinQuest(questId);
        return can;
      }
      return true;
    }

    method IsQuestComplete(questId: uint32) returns (r: bool)
      ensures r <==> questId in quests && MandatoryDone(quests[questId].objectives)
    {
      if questId !in quests {
        return false;
      }
      var objectives := quests[questId].objectives;
      for i := 0 to |objectives|
        invariant forall k :: 0 <= k < i ==> objectives[k].isOptional || objectives[k].isCompleted
      {
        if !objectives[i].isOptional && !objectives[i].isCompleted {
          return false;
        }
      }
      return true;
    }

    method StartQuest(questId: uint32, playerId: uint32) returns (ok: bool)
      modifies this
      ensures ok == Succeeds(old(Snapshot()), Start(questId, playerId))
      ensures Snapshot() == Step(old(Snapshot()), Start(questId, playerId))
    {
      if !initialized {
        return false;
      }
      var valid := ValidateQuestStart(questId);
      if !valid {
        return false;
      }
      var quest := quests[questId];
      quests := quests[questId := quest.(state := InProgress, participants := quest.participants + [playerId],
                                         syncOwner := playerId)];
      playerQuests := playerQuests[playerId := Of(playerQuests, playerId) + [questId]];
      return true;
    }

    method CompleteQuest(questId: uint32, playerId: uint32) returns (ok: bool)
      modifies this
      ensures ok == Succeeds(old(Snapshot()), Complete(questId, playerId))
      ensures Snapshot() == Step(old(Snapshot()), Complete(questId, playerId))
    {
      if questId !in quests || quests[questId].state != InProgress {
        return false;
      }
      var complete := IsQuestComplete(questId);
      if !complete {
        return false;
      }
      quests := quests[questId := quests[questId].(state := Completed)];
      return true;
    }

    method AbandonQuest(questId: uint32, playerId: uint32) returns (ok: bool)
      modifies this
      ensures ok == Succeeds(old(Snapshot()), Abandon(questId, playerId))
      ensures Snapshot() == Step(old(Snapshot()), Abandon(questId, playerId))
    {
      if questId !in quests || quests[questId].state != InProgress {
        return false;
      }
      var list := Erase(Of(playerQuests, playerId), questId);
      playerQuests := playerQuests[playerId := list];
      var participants := Erase(quests[questId].participants, playerId);
      quests := quests[questId := quests[questId].(state := Abandoned, participants := participants)];
      return true;
    }

    method JoinQuest(questId: uint32, playerId: uint32) returns (ok: bool)
      modifies this
      ensures ok == Succeeds(old(Snapshot()), Join(questId, playerId))
      ensures Snapshot() == Step(old(Snapshot()), Join(questId, playerId))
    {
      var can := CanPlayerJoinQuest(questId);
      if !can {
        return false;
      }
      var quest := quests[questId];
      quests := quests[questId := quest.(participants := quest.participants + [playerId])];
      playerQuests := playerQuests[playerId := Of(playerQuests, playerId) + [questId]];
      return true;
    }

    method LeaveQuest(questId: uint32, playerId: uint32) returns (ok: bool)
      modifies this
      ensures ok == Succeeds(old(Snapshot()), Leave(questId, playerId))
      ensures Snapshot() == Step(old(Snapshot()), Leave(questId, playerId))
    {
      if questId !in quests {
        return false;
      }
      var participants := Erase(quests[questId].participants, playerId);
      quests := quests[questId := quests[questId].(participants := participants)];
      var list := Erase(Of(playerQuests, playerId), questId);
      playerQuests := playerQuests[playerId := list];
      return true;
    }

    method UpdateObjective(questId: uint32, objectiveId: uint32, progress: uint32) returns (ok: bool)
      modifies this`quests
      ensures ok == Succeeds(old(Snapshot()), Update(questId, objectiveId, progress))
      ensures Snapshot() == Step(old(Snapshot()), Update(questId, objectiveId, progress))
      ensures quests == if ok
        then old(quests)[questId := Changed(old(quests)[questId], Update(questId, objectiveId, progress))]
        else old(quests)
    {
      hide Bumped;
      if questId !in quests || quests[questId].state != InProgress {
        return false;
      }
      var objectives := quests[questId].objectives;
      for i := 0 to |objectives|
        invariant forall k :: 0 <= k < i ==> objectives[k].objectiveId != objectiveId
        invariant quests == old(quests)
      {
        if objectives[i].objectiveId == objectiveId {
          var updated := objectives[i := Bumped(objectives[i], progress)];
          quests := quests[questId := quests[questId].(objectives := updated)];
          return true;
        }
      }
      return false;
    }

    // The loop of each On... handler over the objectives of one quest.
    method TriggerQuest(questId: uint32, t: Trigger)
      requires questId in quests && quests[questId].state == InProgress
      modifies this`quests
      ensures quests == old(quests)[questId := Changed(old(quests)[questId], Fire(t))]
    {
      hide Bumped, Matches, FirstWith, Step, SameWorld, PrerequisitesMet, MandatoryDone, SameObjective;
      ghost var quest := quests[questId];
      var i := 0;
      while i < |quests[questId].objectives|
        invariant questId in quests && |quests[questId].objectives| == |quest.objectives| && i <= |quest.objectives|
        invariant quests == old(quests)[questId := quest.(objectives := Triggered(quest, t, i))]
      {
        var o := quests[questId].objectives[i];
        MatchesKept(quest, quests[questId], i, t);
        SameId(quest.objectives, quests[questId].objectives, i);
        if Matches(quests[questId], o, t) {
          var ok := UpdateObjective(questId, o.objectiveId, 1);
          UpdateFirstMissing(Triggered(quest, t, i), o.objectiveId);
        }
        i := i + 1;
      }
    }

    // OnPlayerEnterArea, OnPlayerKillMonster, OnPlayerCollectItem, OnPlayerTalkToNpc, OnPlayerUseObject.
    method OnTrigger(t: Trigger)
      modifies this`quests
      ensures Snapshot() == Step(old(Snapshot()), Fire(t))
    {
      hide Changed, SameWorld, Step;
      var todo := quests.Keys;
      while todo != {}
        invariant todo <= quests.Keys == old(quests).Keys
        invariant forall q :: q in quests ==>
          quests[q] == if q in todo then old(quests)[q] else Changed(old(quests)[q], Fire(t))
        decreases |todo|
      {
        var q :| q in todo;
        todo := todo - {q};
        if quests[q].state == InProgress {
          TriggerQuest(q, t);
        } else {
          NotInProgress(quests[q], t);
        }
      }
      TriggerStep(old(Snapshot()), t, quests);
    }
  }

  lemma UpdateFirstMissing(objectives: seq<Objective>, id: uint32)
    ensures FirstWith(objectives, id) == |objectives| ==> UpdateFirst(objectives, id, 1) == objectives
  {
  }

  lemma TriggerStep(w: World, t: Trigger, quests: map<uint32, Quest>)
    requires quests.Keys == w.quests.Keys
    requires forall q :: q in quests ==> quests[q] == Changed(w.quests[q], Fire(t))
    ensures Step(w, Fire(t)) == w.(quests := quests)
  {
    hide Changed, SameWorld;
  }

  lemma SameId(a: seq<Objective>, b: seq<Objective>, i: nat)
    requires SameObjectives(a, b) && i < |a|
    ensures a[i].objectiveId == b[i].objectiveId
  {
    assert SameObjective(a[i], b[i]);
  }

  lemma NotInProgress(quest: Quest, t: Trigger)
    requires quest.state != InProgress
    ensures Changed(quest, Fire(t)) == quest
  {
  }
}
