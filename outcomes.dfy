/**
 * Optional values, results and the failures both configuration stores raise.
 * The stores throw plain exceptions whose only content is a message; each
 * message shape gets one constructor here, carrying the names it mentions.
 */
module Outcomes {

  datatype Option<+T> = None | Some(value: T)

  datatype Error =
    // "{name} was not found"
    | NameNotFound(name: string)
    // "Section with {name} was not found"
    | SectionWithNameNotFound(name: string)
    // the InvalidOperationException of SingleOrDefault on a second match
    | MoreThanOneMatch
    // "Channel {channel} already exists in {section}"
    | ChannelAlreadyExists(channel: string, section: string)
    // "{channel} in {section} would not be updated"
    | WouldNotBeUpdated(channel: string, section: string)
    // "{item} was not found in {section}"
    | NotFoundIn(item: string, section: string)
    // "No items found with the specified condition."
    | NoItemsFound
    // "Multiple items found with the specified condition."
    | MultipleItemsFound
    // "{user} already exists in {section}"
    | AlreadyExistsIn(user: string, section: string)
    // "{section} already contains {user}"
    | AlreadyContains(section: string, user: string)
    // "{user} could not be moved. Does {section} contain {user}?"
    | CouldNotBeMoved(user: string, section: string)
    // "{section} could not be removed"
    | CouldNotBeRemoved(section: string)
    // "{user} from {section} could not be removed"
    | CouldNotBeRemovedFrom(user: string, section: string)

  /** The value an operation returns, or the exception it throws. */
  datatype Result<+T> = Ok(value: T) | Err(error: Error)
}
