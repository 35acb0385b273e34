/** The six message types (app/contracts/messages.py), with the fields the worker acts on. */
module Events {
  import opened Prelude

  datatype Source = Lesson | Review | Manual | Quest | Streak

  datatype Event =
    | XpAwarded(userId: string, amount: nat, source: Source, languageId: Option<string>, optIn: bool)
    | LessonCompleted(userId: string, isTestOut: bool)
    | ReviewCompleted(userId: string, count: nat)
    | FriendAdded(userId: string, friendId: string)
    | AdWatched(userId: string)
    | SubscriptionChanged(userId: string)
}
