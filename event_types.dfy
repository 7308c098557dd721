/** The record shapes the dashboard receives from the server for events and channels. */
module EventTypes {
  import opened Wrappers

  /** A Telegram channel as the server lists it. */
  datatype Channel = Channel(id: string, name: string, link: string, createdAt: string, updatedAt: string)

  /** The server's pre-computed presentation of an event's finish time. */
  datatype FinishInfo = FinishInfo(
    date: string, time: string, timeRemaining: string, isFinished: bool, isEnding: bool)

  /** A voting event ("tanlov"); `finishDate` is the ISO-8601 text the server sends. */
  datatype Event = Event(
    id: int,
    name: string,
    descr: string,
    imageName: string,
    imageUrl: string,
    imageId: string,
    finishDate: string,
    isActive: bool,
    subscribeChannels: seq<Channel>,
    sentChannels: seq<Channel>,
    createdAt: string,
    updatedAt: string,
    formattedFinishDate: Option<FinishInfo>)
}
