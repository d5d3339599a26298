/** The client errors the handlers answer with, one constructor per distinct
    message of the backend. Every one of them is terminal for the call that
    raised it; a storage failure (HTTP 500) is not modelled. */
module Errors {

  datatype Error =
    // submit an access request
    | Missing                                       // a required field is absent or falsy (400)
    | PastDate                                      // the day is before today (400)
    | TimeOrder                                     // heure_fin <= heure_debut (400)
    | UserNotFound                                  // no user with that id (404)
    | RoomNotFound                                  // no room with that id (404)
    | OutsideHours(opening: int, closing: int)      // window not inside the room's hours (400)
    | DuplicatePending                              // a conflicting pending request exists (400)
    // approve / reject, list by user
    | RequestNotFound                               // no request with that id (404)
    | NotPending                                    // the request is no longer pending (400)
    | NoRequests                                    // the user has no request at all (404)
    // room creation
    | CapacityNotPositive                           // capacite <= 0 (400)
    | PresentsOutOfRange                            // nombre_presents outside [0, capacite] (400)
    | ClosingNotAfterOpening                        // heure_fermeture <= heure_ouverture (400)
    // user registration and update
    | InvalidStatut                                 // statut not one of the four allowed (400)
    | NoUpdates                                     // a user update with no field (400)
}
