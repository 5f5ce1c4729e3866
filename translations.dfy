/**
 * The message tables of lib/translations.ts: one table per language, each
 * taking a message key to its text, or to `None` (`undefined`) for a key it
 * does not define.
 */
module Translations {

  import opened Wrappers

  datatype Language = En | De

  /** `translations.en` (lib/translations.ts, lines 2-82). */
  function English(key: string): Option<string> {
    match key
    case "login" => Some("Login")
    case "register" => Some("Register")
    case "username" => Some("Username")
    case "password" => Some("Password")
    case "loginButton" => Some("Sign In")
    case "registerButton" => Some("Sign Up")
    case "logout" => Some("Logout")
    case "createJoin" => Some("Create & Join")
    case "myMeetups" => Some("My Meetups")
    case "createMeetup" => Some("Create Meetup")
    case "joinMeetup" => Some("Join Meetup")
    case "meetupCode" => Some("Meetup Code")
    case "title" => Some("Title")
    case "description" => Some("Description")
    case "location" => Some("Location")
    case "date" => Some("Date")
    case "time" => Some("Time")
    case "hasAlcohol" => Some("Alcohol Available")
    case "shoppingList" => Some("Shopping List")
    case "addItem" => Some("Add Item")
    case "itemName" => Some("Item Name")
    case "baseAmount" => Some("Base Amount")
    case "unit" => Some("Unit")
    case "category" => Some("Category")
    case "perPerson" => Some("Per Person")
    case "food" => Some("Food")
    case "drink" => Some("Drink")
    case "alcohol" => Some("Alcohol")
    case "other" => Some("Other")
    case "joinMeetupTitle" => Some("Join Meetup")
    case "isVegetarian" => Some("Vegetarian")
    case "isVegan" => Some("Vegan")
    case "drinksAlcohol" => Some("Drinks Alcohol")
    case "stayDuration" => Some("Stay Duration (hours)")
    case "joinTime" => Some("Join Time")
    case "suggestions" => Some("Suggestions for Host")
    case "bringingItems" => Some("Items I'm Bringing")
    case "editParticipation" => Some("Edit Participation")
    case "leaveMeetup" => Some("Leave Meetup")
    case "itemsBringing" => Some("Bringing")
    case "participationUpdated" => Some("Participation updated successfully!")
    case "leftMeetup" => Some("Successfully left meetup!")
    case "meetupDetails" => Some("Meetup Details")
    case "participants" => Some("Participants")
    case "costs" => Some("Costs")
    case "addCost" => Some("Add Cost")
    case "splitCosts" => Some("Split Costs")
    case "totalCost" => Some("Total Cost")
    case "yourShare" => Some("Your Share")
    case "save" => Some("Save")
    case "cancel" => Some("Cancel")
    case "delete" => Some("Delete")
    case "edit" => Some("Edit")
    case "yes" => Some("Yes")
    case "no" => Some("No")
    case "loading" => Some("Loading...")
    case "error" => Some("Error")
    case "success" => Some("Success")
    case "meetupCreated" => Some("Meetup created successfully!")
    case "joinedMeetup" => Some("Successfully joined meetup!")
    case "costAdded" => Some("Cost added successfully!")
    case "loginRequired" => Some("Please login to continue")
    case _ => None
  }

  /** `translations.de` (lib/translations.ts, lines 83-163). */
  function German(key: string): Option<string> {
    match key
    case "login" => Some("Anmelden")
    case "register" => Some("Registrieren")
    case "username" => Some("Benutzername")
    case "password" => Some("Passwort")
    case "loginButton" => Some("Einloggen")
    case "registerButton" => Some("Registrieren")
    case "logout" => Some("Abmelden")
    case "createJoin" => Some("Erstellen & Beitreten")
    case "myMeetups" => Some("Meine Meetups")
    case "createMeetup" => Some("Meetup Erstellen")
    case "joinMeetup" => Some("Meetup Beitreten")
    case "meetupCode" => Some("Meetup Code")
    case "title" => Some("Titel")
    case "description" => Some("Beschreibung")
    case "location" => Some("Ort")
    case "date" => Some("Datum")
    case "time" => Some("Zeit")
    case "hasAlcohol" => Some("Alkohol Verf\U{00FC}gbar")
    case "shoppingList" => Some("Einkaufsliste")
    case "addItem" => Some("Element Hinzuf\U{00FC}gen")
    case "itemName" => Some("Elementname")
    case "baseAmount" => Some("Grundmenge")
    case "unit" => Some("Einheit")
    case "category" => Some("Kategorie")
    case "perPerson" => Some("Pro Person")
    case "food" => Some("Essen")
    case "drink" => Some("Getr\U{00E4}nk")
    case "alcohol" => Some("Alkohol")
    case "other" => Some("Sonstiges")
    case "joinMeetupTitle" => Some("Meetup Beitreten")
    case "isVegetarian" => Some("Vegetarier")
    case "isVegan" => Some("Veganer")
    case "drinksAlcohol" => Some("Trinkt Alkohol")
    case "stayDuration" => Some("Aufenthaltsdauer (Stunden)")
    case "joinTime" => Some("Beitrittszeit")
    case "suggestions" => Some("Vorschl\U{00E4}ge f\U{00FC}r Gastgeber")
    case "bringingItems" => Some("Mitgebrachte Gegenst\U{00E4}nde")
    case "editParticipation" => Some("Teilnahme Bearbeiten")
    case "leaveMeetup" => Some("Meetup Verlassen")
    case "itemsBringing" => Some("Bringt Mit")
    case "participationUpdated" => Some("Teilnahme erfolgreich aktualisiert!")
    case "leftMeetup" => Some("Meetup erfolgreich verlassen!")
    case "meetupDetails" => Some("Meetup Details")
    case "participants" => Some("Teilnehmer")
    case "costs" => Some("Kosten")
    case "addCost" => Some("Kosten Hinzuf\U{00FC}gen")
    case "splitCosts" => Some("Kosten Aufteilen")
    case "totalCost" => Some("Gesamtkosten")
    case "yourShare" => Some("Ihr Anteil")
    case "save" => Some("Speichern")
    case "cancel" => Some("Abbrechen")
    case "delete" => Some("L\U{00F6}schen")
    case "edit" => Some("Bearbeiten")
    case "yes" => Some("Ja")
    case "no" => Some("Nein")
    case "loading" => Some("Laden...")
    case "error" => Some("Fehler")
    case "success" => Some("Erfolg")
    case "meetupCreated" => Some("Meetup erfolgreich erstellt!")
    case "joinedMeetup" => Some("Erfolgreich dem Meetup beigetreten!")
    case "costAdded" => Some("Kosten erfolgreich hinzugef\U{00FC}gt!")
    case "loginRequired" => Some("Bitte melden Sie sich an, um fortzufahren")
    case _ => None
  }

  /** `translations[language][key]`. */
  function Table(lang: Language, key: string): Option<string> {
    match lang
    case En => English(key)
    case De => German(key)
  }
}
